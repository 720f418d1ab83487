# OA Dues Lookup: the dues table's schema lifecycle

This project models the part of the OA Dues Lookup WordPress plugin that
manages its database schema. The plugin keeps one table, `<prefix>oalm_dues_data`,
and a schema version number in the options store (`oadueslookup_db_version`;
the code expects version 3). The model covers four PHP functions:

- `oadueslookup_create_table` pulls the table name out of a `CREATE TABLE`
  statement with `preg_match("/create table\s+(\w+)\s/i", …)`. It returns
  false when there is no match. Otherwise it looks the name up in
  `SHOW TABLES`, runs the statement only when the name is missing, and
  reports whether the table is listed afterwards.
- `oadueslookup_install` creates the table if needed, then reads the stored
  version. An empty version (absent, or 0) counts as a fresh install: the
  local `$installed_version` becomes 3 for that run, so no update code runs,
  and `add_option` writes 3 only when the option is absent. Otherwise step 2
  runs below version 2, adding `reg_audit_date`. Step 3 runs below version 3:
  it drops `reg_audit_date` and `reg_audit_result`, then adds `bsa_reg`,
  `bsa_reg_overridden`, `bsa_verify_date` and `bsa_verify_status`. Last,
  the version is written as 3 when it was below 3.
- `oadueslookup_update_db_check` runs the installer when the stored version
  is not 3, then seeds ten default options with `add_option`, which never
  overwrites.
- `oadueslookup_update_shortcodes` moves a stored `oadueslookup_slug` to
  `oadueslookup_oldslug`, deleting the slug option.

How it is built:

- `DdlName` models the regular expression as a greedy left-to-right scan. It
  gives a declarative definition of a match (`MatchSpan`) and proves that
  the scan returns the word captured by the leftmost match.
- `Host` models WordPress and `$wpdb`. The `Site` class holds the table
  list, each table's ordered column list, the options map, and a log of the
  statements sent to the database. Its methods are `SHOW TABLES`, the two
  kinds of statement, and `get_option`, `add_option`, `update_option` and
  `delete_option`. A statement the database refuses changes nothing: adding
  a column that exists, dropping one that does not, altering a missing
  table, or creating a table that exists.
- `DuesSchema` gives each PHP function as a specification function over the
  `Store` value. The guarded update code is modelled as the list of steps
  `Migrations`, and `Pending` selects the steps above a version.
- `DuesLookup` writes the PHP functions as methods on a `Site`, statement by
  statement. Each is proved to leave exactly the state its specification
  function describes. The ten `add_option` calls are one loop over the
  `Defaults` list, which holds the ten key and value pairs in source order.
- `DuesProperties` proves what the plugin promises about those functions.

A stored version of 0 counts as empty, but `add_option` does not replace
it, and the final `update_option` is skipped because 3 < 3 is false. So
after an install the version is still 0, and every later page load runs the
installer again. Each such run sends the `CREATE TABLE` check and no
`ALTER TABLE`. The model keeps this behaviour (`InstallFresh`,
`InstallVersion`).

Three consequences of the code that its comments do not mention:

- From version 1, the column step 2 adds (`reg_audit_date`) is dropped again
  by step 3, so it does not survive the upgrade (`MigratedWithoutAudit`).
- The four registration columns are two `TINYINT(1)`, one `DATE` and one
  `VARCHAR(50)` column.
- A fresh install reaches version 3 only when the version option is absent,
  not when it holds 0.

## Model

| member | source | states |
|---|---|---|
| DdlName.SkipSpaces | oadueslookup.php:57 | `\s+` is greedy: the run it ends is all white space and stops at a non-space or the end |
| DdlName.SkipWord | oadueslookup.php:57 | `(\w+)` is greedy: the run it ends is all word characters and stops at a non-word character or the end |
| DdlName.MatchAtExact | oadueslookup.php:57 | at a given position the anchored pattern succeeds exactly when a match starts there, and that match is unique |
| DdlName.FindFromLeftmost | oadueslookup.php:57 | scanning from a position with no match to its left returns the word of the leftmost match, or nothing when there is no match |
| DdlName.ExtractTableNameSpec | oadueslookup.php:57-61 | preg_match fails exactly when the statement holds no match; otherwise `$match[1]` is the word of the leftmost match, a non-empty run of word characters |
| DuesProperties.NameAfterKeyword | oadueslookup.php:57-58 | "create table" in any case, one white-space character, a word and white space: the word is the name found |
| DuesProperties.DuesDdlNamesDuesTable | oadueslookup.php:85-107 | the statement install builds names `<prefix>oalm_dues_data` when the prefix is made of word characters |
| Host.Site.ShowTables | oadueslookup.php:62 | SHOW TABLES lists the tables of the database |
| Host.Site.ExecuteCreate | oadueslookup.php:68 | running the CREATE TABLE logs it; when accepted it adds the named table with its declared columns, unless the table exists |
| Host.Site.ExecuteAlter | oadueslookup.php:133 | running an ALTER TABLE logs it and applies the change to that table's columns only |
| Host.Site.GetOption | oadueslookup.php:122 | get_option returns the stored value, or nothing when the key is absent |
| Host.AddIfAbsent | oadueslookup.php:128 | add_option: the key is present afterwards, every existing value is kept, and only that key can be new, with the given value |
| Host.Site.AddOption | oadueslookup.php:128 | add_option changes only the options, by AddIfAbsent |
| Host.Site.UpdateOption | oadueslookup.php:152 | update_option sets the value whether or not the key exists, and changes nothing else |
| Host.Site.DeleteOption | oadueslookup.php:194 | delete_option removes the key and changes nothing else |
| Host.WithoutEffect | oadueslookup.php:138-139 | DROP COLUMN removes every column of that name and keeps all others; without such a column the table is unchanged |
| Host.WithoutAppend | oadueslookup.php:138 | dropping a column from two concatenated column lists drops it from each |
| Host.ApplyChangesAppend | oadueslookup.php:131-145 | running two lists of ALTERs one after the other equals running their concatenation |
| Host.AddAllNew | oadueslookup.php:141-144 | ADD COLUMN for columns with new, distinct names appends them in order |
| Host.Alters | oadueslookup.php:131-145 | the logged statements are one ALTER TABLE per change, in the changes' order |
| Host.AlterAllEffect | oadueslookup.php:131-145 | the ALTERs change only the named table's columns, as the changes in order give them, leave tables and options alone, and are logged in order |
| Host.AlterAllKeepsConsistent | oadueslookup.php:131-145 | ALTERs keep the table list and the column map in step: a table has columns exactly when it is listed |
| DuesProperties.CreateTableKeepsConsistent | oadueslookup.php:53-76 | the create-table function keeps the table list and the column map in step |
| DuesProperties.InstallKeepsConsistent | oadueslookup.php:78-154 | the installer keeps the table list and the column map in step |
| DuesProperties.UpdateDbCheckKeepsConsistent | oadueslookup.php:156-177 | the update check keeps the table list and the column map in step |
| DuesLookup.FindTable | oadueslookup.php:62-66 | the foreach over SHOW TABLES finds the name exactly when it is listed |
| DuesSchema.CreateTableSpec | oadueslookup.php:53-76 | no match: false and nothing runs. Name listed: true and nothing runs. Otherwise the statement runs exactly once, and the result is true exactly when the name is listed afterwards. Options and existing tables are untouched |
| DuesLookup.CreateTable | oadueslookup.php:53-76 | the method leaves the state and returns the flag CreateTableSpec gives |
| DuesProperties.CreateDuesTable | oadueslookup.php:62-75 | for the dues statement, CREATE TABLE runs only when the dues table is not listed, and the call reports whether it exists afterwards |
| DuesSchema.PendingMigrations | oadueslookup.php:131-145 | the step list gives step 2 exactly below version 2, then step 3 exactly below version 3, in that order |
| DuesSchema.AlterAllSnoc | oadueslookup.php:131-145 | issuing one more ALTER after a list of them applies it to the state the list left |
| DuesLookup.Migrate | oadueslookup.php:131-145 | the guarded blocks issue exactly the pending steps' ALTERs, in order, on the dues table |
| DuesLookup.Install | oadueslookup.php:78-154 | the method leaves exactly the state InstallSpec describes |
| DuesProperties.InstallFresh | oadueslookup.php:122-145 | empty version: no ALTER runs; an absent version becomes 3, a stored 0 is left as it is |
| DuesProperties.InstallCurrentOrNewer | oadueslookup.php:131-153 | version 3 or above: only the create check runs; no ALTER, and the version is not lowered |
| DuesProperties.InstallVersion | oadueslookup.php:122-153 | afterwards the version is 3 when absent or below 3 (apart from 0), and unchanged otherwise; no other option changes |
| DuesProperties.ApplyStep3 | oadueslookup.php:136-145 | step 3 drops both audit columns and appends the four registration columns in order |
| DuesProperties.ApplySteps2And3 | oadueslookup.php:131-145 | step 2 then step 3 leaves the same layout as step 3 alone |
| Host.AddAllNames | oadueslookup.php:141-144 | after a run of ADD COLUMNs a name is in the table exactly when it was there before or is one of the added names |
| Host.AddAllPresent | oadueslookup.php:141-144 | ADD COLUMN for names all present already changes nothing |
| DuesProperties.Step3Names | oadueslookup.php:136-145 | after step 3 a name is in the table exactly when it is not an audit name and was there before or is a registration name |
| DuesProperties.MigratedColumns | oadueslookup.php:131-145 | from any version below 3, a table holding no registration column ends as its columns without the audit ones, followed by the registration columns |
| DuesProperties.MigratedWithoutAudit | oadueslookup.php:131-145 | from any version below 3 and whatever the table held, neither audit column is left afterwards and a column of each registration name is there |
| DuesProperties.MigrationRerun | oadueslookup.php:131-145 | re-running the ALTERs of version 1 or 2 on a table already migrated (no audit column, every registration column) leaves it unchanged |
| DuesProperties.InstallUpgrade | oadueslookup.php:107-153 | an upgrade from version 1 or 2 of an existing table: only that table changes, the pending ALTERs are logged in order, and the version becomes 3 |
| DuesProperties.UpgradeMatchesFreshLayout | oadueslookup.php:96-145 | an upgraded table that held the four original columns ends with exactly the columns of the CREATE TABLE statement |
| DuesProperties.InstallResume | oadueslookup.php:107-153 | an install interrupted after its ALTERs and run again (version 1 or 2, table already migrated): the ALTERs are logged again but change no table or column, and the version becomes 3 |
| DuesProperties.InstallIdempotent | oadueslookup.php:107-153 | a second install right after one, when the database answers the repeated CREATE TABLE as before, issues no ALTER and changes no table, column or option; it only repeats a CREATE TABLE the database refused |
| DuesSchema.UpdateDbCheckSpec | oadueslookup.php:159-161 | the installer runs exactly when the stored version is not 3: at version 3 tables, columns and the statement log are unchanged, otherwise they are as the installer leaves them |
| DuesProperties.UpdateDbCheckUpgrades | oadueslookup.php:156-161 | from version 1 or 2, on an existing dues table without registration columns, the check migrates the table: only it changes, to its columns without the audit ones followed by the registration columns, and the pending ALTERs are logged |
| DuesLookup.UpdateDbCheck | oadueslookup.php:156-177 | the method leaves exactly the state UpdateDbCheckSpec describes |
| DuesLookup.AddDefaults | oadueslookup.php:166-175 | add_option for each default pair in order changes only the options, and leaves them as SeedDefaults gives |
| DuesProperties.SeedDefaultsKeeps | oadueslookup.php:162-175 | the defaults never overwrite: every option keeps its value, every default key is present afterwards, and no other key appears |
| DuesProperties.SeedDefaultsValue | oadueslookup.php:166-175 | a missing option gets its default value |
| DuesProperties.SeedPresent | oadueslookup.php:162-175 | when every default key is already present, nothing changes |
| DuesProperties.SeedDefaultsIdempotent | oadueslookup.php:166-175 | seeding the defaults a second time changes nothing |
| DuesProperties.DefaultsKeys | oadueslookup.php:166-175 | the ten default keys are distinct, and none of them is the version key |
| DuesProperties.UpdateDbCheckOptions | oadueslookup.php:156-177 | afterwards the version is as install leaves it (untouched when it was 3), every other option keeps its value, and every default is present, with its default value when it was missing |
| DuesProperties.UpdateDbCheckSettles | oadueslookup.php:159-175 | once the check leaves the version at 3, running it again changes nothing |
| DuesSchema.UpdateShortcodesSpec | oadueslookup.php:179-198 | no slug: nothing changes. A slug other than the "not set" marker is deleted and kept as the old slug, unless an old slug exists, which stays. Nothing else changes |
| DuesLookup.UpdateShortcodes | oadueslookup.php:179-198 | the method leaves exactly the state UpdateShortcodesSpec describes |
| DuesProperties.ShortcodesIdempotent | oadueslookup.php:183-196 | the move happens once: a second call changes nothing |

## Left out

- Hook and activation registration, CSS enqueueing, admin notices, the menu and its icon: these are user-interface glue with no state logic.
- Sample-data inserts (`oadueslookup_insert_sample_data`): these are fixed SQL literals.
- The included files at the end of oadueslookup.php are not part of this model.
- `wp_insert_post` in `oadueslookup_update_shortcodes` is a foreign host call. Only its effect on the options is modelled; the page it creates is not.
- SQL semantics are abstract. A created table gets the column list passed as `declared`; the statement text is not parsed beyond the table name. `PRIMARY KEY`, `NOT NULL` and column data are not modelled.
- Whether the database accepts a CREATE TABLE for reasons outside the model (syntax, privileges, storage) is the parameter `accepted`.
- Refused statements change nothing, and no error is reported. Failures other than the ones named under Host are not modelled: MySQL refusing to drop a table's last column, type errors, or lost connections.
- Table names are compared with PHP's loose `==` in the source. The model compares them as strings, so numeric-looking names that `==` equates are not modelled. Table and column names are compared case-sensitively; MySQL compares column names (and, on some platforms, table names) without regard to case, which is not modelled.
- Host.AfterCreate: the created table is named by the word the name pattern captures. For `CREATE TABLE IF NOT EXISTS t` that word is `IF`, while MySQL creates `t` and the PHP function returns false; statements of that form are not modelled. The plugin's own statement has no such clause.
- The stored version is modelled as a number (`VersionTyped`). A version option holding text that PHP would juggle into a number is not modelled.
- `get_site_option` and `get_option` read the same options store here. On a multisite installation they differ.
- The regex works on ASCII: `\w` is letters, digits and `_`, and `\s` is the six ASCII white-space characters. Unicode matching modes are not modelled.
- DuesProperties.DuesDdlNamesDuesTable: holds only for prefixes made of word characters, which are the prefixes WordPress accepts. With any other prefix the statement's name is not found, and the model does not characterise that case further.
- DuesProperties.MigratedColumns: gives the exact column list only for a table holding no registration column. A table already migrated is covered by MigrationRerun; for a partly migrated one only the names are stated, by MigratedWithoutAudit.
- DuesProperties.MigratedWithoutAudit: states names only, not the full column list, because a column of a registration name that is already there keeps its existing type and position.
- DuesProperties.InstallUpgrade: covers only an existing dues table without registration columns. A table already migrated is covered by InstallResume; upgrades of a partly migrated table, or of a missing table, are covered only by InstallVersion, AlterAllEffect and MigratedWithoutAudit.
- Concurrency: two page loads running the installer at once are not modelled.
