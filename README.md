# Snowflake account transcription, modelled in Dafny

This project models the replication core of `snowflake/account_transcribe.py`.
That core copies the metadata of one Snowflake account into a fresh one:

- databases, through their `get_ddl` text;
- users, roles and warehouses;
- user-to-role grants and role-to-object grants.

While it creates these objects it keeps four drop lists. Together they act as a
rollback ledger, which `drop_added_objects` later replays.

The model has four modules:

- `Text` (`text.dfy`) models the Python and pandas operations the statements are built from:
  - `str.split` with a one-character separator, and the matching `join`;
  - the `re.sub` that deletes newlines and tabs;
  - list comprehensions with and without an `if` filter;
  - flattening;
  - `Series.unique()`, which keeps first-occurrence order.
- `Catalog` (`catalog.dfy`) holds one typed record per catalog query row. A `Source` value holds every answer the source account gives in one run.
- `Statements` (`statements.dfy`) is the object mapper: pure functions from rows to creation, grant and drop statement text. Each drop statement comes with a parser that reads back the name it drops.
- `Transcribe` (`transcribe.dfy`) models the run itself:
  - `TargetCursor` is an append-only log of executed statements;
  - `TranscribeSnowflakeAccount` is a class holding the source, the cursor and the four ledger fields, with one method per method of the original class;
  - pure functions give the statement log a whole `copy_account` run produces (`CopyAccountLog`) and what `drop_added_objects` then executes (`RollbackLog`).

Each method is proved against its log function. The properties are then proved about these functions:

- what every fragment, statement and drop looks like;
- what the filters keep;
- the order of the run;
- that each ledger entry names the object whose creation sits at the same position.

In several places the code does not do what one might expect of an account copier. The model follows the code:

- **Rollback order.** One might expect a rollback to drop in reverse creation order (warehouses, roles, users, databases). `drop_added_objects` drops databases, then users, roles and warehouses (`snowflake/account_transcribe.py:358-359`). `RollbackLog` and `DropAddedObjects` state the code's order.
- **Error policy.** One might expect a failed statement to be logged and the run to continue. The code catches nothing, so the model's `Execute` always succeeds, and no recovery path is modelled.
- **Warehouse drop.** The database, role and user drops are guarded by `IF EXISTS`. The warehouse drop has no such guard (`:244`), and `WarehouseDrop` keeps it unguarded.
- **Run order.** Nothing orders the categories by their dependencies. The code runs a fixed sequence (`:347-352`). The model states that sequence exactly, together with its consequences (`GrantsFollowCreations`). It builds no dependency graph.
- **Password.** The placeholder password is `'abc123'` (`:189`). The notes in the same file say "pass123".

## Model

| member | source | states |
|---|---|---|
| Text.Split | snowflake/account_transcribe.py:127 | `split(';')` always yields at least one piece, and no piece contains the separator |
| Text.SplitCount | snowflake/account_transcribe.py:127 | a split yields one more piece than the text has separators |
| Text.JoinSplit | snowflake/account_transcribe.py:127 | joining the pieces with the separator gives back the original text, so splitting loses nothing but the separators |
| Text.RemoveChars | snowflake/account_transcribe.py:127 | the `re.sub` result is no longer than its input and contains none of the deleted characters |
| Text.RemoveCharsKeepsOthers | snowflake/account_transcribe.py:127 | every character that is not deleted keeps its number of occurrences, so spaces and all other text survive |
| Text.RemoveCharsAbsent | snowflake/account_transcribe.py:127 | deleting characters never introduces a character that was not there |
| Text.Filter | snowflake/account_transcribe.py:127 | a filtering comprehension keeps every element that passes, and only elements of the input that pass |
| Text.FilterAppend | snowflake/account_transcribe.py:127 | filtering a concatenation filters each part and keeps them in order |
| Text.FilterMultiplicity | snowflake/account_transcribe.py:127 | each passing element is kept as often as it occurs in the input, and a failing one not at all |
| Text.FilterRowByRow | snowflake/account_transcribe.py:127 | the element at any position contributes itself or nothing, in its place, between the results for the elements before and after it |
| Text.Unique | snowflake/account_transcribe.py:119 | `unique()` keeps every element once, with no duplicates, in order of first occurrence |
| Text.FilterUniqueOrder | snowflake/account_transcribe.py:119 | a filter followed by `unique()` keeps the order of first occurrences in the unfiltered column |
| Text.MapFilterExactly | snowflake/account_transcribe.py:279-284 | the image of every kept row is in the result, and every element of the result is the image of a kept row |
| Text.MapFilterRowByRow | snowflake/account_transcribe.py:279-284 | a filtered comprehension handles rows one at a time, in order: each row contributes its image or nothing, in its place |
| Statements.SelectDatabases | snowflake/account_transcribe.py:119 | the selected databases are exactly the non-platform names of `show databases`, with no duplicates, in order of first appearance |
| Statements.DdlFragments | snowflake/account_transcribe.py:127 | no executed fragment is empty or contains `;`, a newline or a tab |
| Statements.DdlFragmentsKeepText | snowflake/account_transcribe.py:127 | the fragments, concatenated in order, are exactly the DDL text with `;`, newlines and tabs removed |
| Statements.DdlFragmentsCount | snowflake/account_transcribe.py:127 | a DDL text yields at most one fragment more than it has `;` characters |
| Statements.DatabaseDrop | snowflake/account_transcribe.py:133 | the drop statement is `DROP DATABASE IF EXISTS '<db>';` and reads back as that database |
| Statements.DatabaseDrops | snowflake/account_transcribe.py:133 | one drop per database, in list order, each naming its database |
| Statements.DdlPerDatabase | snowflake/account_transcribe.py:122-127 | one fragment list per database, in database order, each from that database's own DDL |
| Statements.DatabaseStatementsReadOnly | snowflake/account_transcribe.py:122-131 | the DDL of a database outside the list has no effect on the statements executed |
| Statements.RoleCreate | snowflake/account_transcribe.py:156 | a role creation is a `CREATE OR REPLACE ROLE` statement that reads back as its role |
| Statements.RoleCreates | snowflake/account_transcribe.py:156 | one creation per role row, in row order |
| Statements.RoleDrop | snowflake/account_transcribe.py:159 | the drop is `DROP ROLE IF EXISTS <role>;` and reads back as that role |
| Statements.RoleDrops | snowflake/account_transcribe.py:159 | one drop per role row, in row order |
| Statements.UserClause | snowflake/account_transcribe.py:191-209 | an optional column contributes the empty string exactly when it is NULL; otherwise its clause reads back as the value between `login_name='` and `'`, ` display_name='` and `'`, ` email='` and `'`, or after an unquoted ` default_role=` |
| Statements.UserHead | snowflake/account_transcribe.py:188-189 | the statement head is a creation that reads back as the user name in double quotes, followed by the password `'abc123'` |
| Statements.UserCreate | snowflake/account_transcribe.py:211-212 | a user creation is a `CREATE OR REPLACE` statement that begins with the head for its user |
| Statements.UserSegmentsWithField | snowflake/account_transcribe.py:191-212 | each optional column fills its own slot of the statement, and changing it changes only that slot |
| Statements.UserSegmentsFill | snowflake/account_transcribe.py:191-212 | without a column its slot is empty; with a value the slot holds that column's clause, and the head is unchanged |
| Statements.UserCreateAllAbsent | snowflake/account_transcribe.py:191-212 | a user with no optional column gets a statement with no clause at all: only the head, the continuation blanks and the separators |
| Statements.UserCreateShowsFields | snowflake/account_transcribe.py:191-212 | every non-NULL column shows up in the statement as its clause |
| Statements.UserClauseInsertion | snowflake/account_transcribe.py:191-212 | giving a NULL column a value inserts exactly that column's clause, after the head, and leaves the rest of the statement as it was |
| Statements.UserCreates | snowflake/account_transcribe.py:186-215 | one creation per user row, in row order, each beginning with that user's head |
| Statements.UserDrop | snowflake/account_transcribe.py:218 | the drop is `DROP USER IF EXISTS '<name>';` and reads back as that user |
| Statements.UserDrops | snowflake/account_transcribe.py:218 | one drop per user name, in order |
| Statements.UserNames | snowflake/account_transcribe.py:179 | the name column, row by row |
| Statements.WarehouseCreate | snowflake/account_transcribe.py:239-240 | a warehouse creation reads back as the warehouse name and its `warehouse_size`, created suspended |
| Statements.WarehouseCreates | snowflake/account_transcribe.py:239-240 | one creation per warehouse row, in row order |
| Statements.WarehouseDrop | snowflake/account_transcribe.py:244 | the drop is `DROP WAREHOUSE <name>;`, with no `IF EXISTS`, and reads back as that warehouse |
| Statements.WarehouseDrops | snowflake/account_transcribe.py:244 | one drop per warehouse name, in order |
| Statements.WarehouseNames | snowflake/account_transcribe.py:236 | the name column, row by row |
| Statements.UserRoleGrant | snowflake/account_transcribe.py:262-263 | a grant statement that reads back as `<role>" TO USER "<user>` between `GRANT ROLE "` and `";` |
| Statements.UserRoleGrantList | snowflake/account_transcribe.py:262-263 | one grant per `grants_to_users` row, in row order |
| Statements.RoleRoleGrant | snowflake/account_transcribe.py:283-284 | a grant statement that reads back as `<source>" TO ROLE "<target>` between `GRANT ROLE "` and `";` |
| Statements.RoleRoleGrantList | snowflake/account_transcribe.py:279-284 | every role-to-role statement is a grant |
| Statements.RoleRoleGrantsExactly | snowflake/account_transcribe.py:279-284 | every row granted on `ROLE` yields its grant, and every statement comes from such a row |
| Statements.RoleRoleGrantsRowByRow | snowflake/account_transcribe.py:279-284 | rows are handled one at a time, in row order: a row granted on `ROLE` contributes its grant in its place, so a duplicated row is granted twice; any other row contributes nothing |
| Statements.FullObjectNameParts | snowflake/account_transcribe.py:324-329 | the qualified name splits on `.` into catalog, schema and name for a table or view; catalog and name for a schema; the bare name otherwise |
| Statements.ObjectGrantHead | snowflake/account_transcribe.py:324-335 | the part of an object grant up to the grantee is a grant that reads back as `<privilege> ON <type> <qualified name>` between `GRANT ` and ` TO ROLE  <grantee>` |
| Statements.ObjectGrant | snowflake/account_transcribe.py:332-335 | a grant that ends in ` REVOKE CURRENT GRANTS; ` exactly when the privilege is `OWNERSHIP`, and otherwise ends in `; ` |
| Statements.ObjectGrantRows | snowflake/account_transcribe.py:301-306 | the kept rows are exactly those on a supported object type and not on a platform object |
| Statements.ObjectGrantList | snowflake/account_transcribe.py:315-338 | every role-to-object statement is a grant |
| Statements.ObjectGrantsExactly | snowflake/account_transcribe.py:301-338 | every supported, non-platform row yields its grant, and every statement comes from such a row |
| Statements.ObjectGrantsRowByRow | snowflake/account_transcribe.py:301-338 | rows are handled one at a time, in row order: a supported row is kept and contributes its grant in its place; any other row contributes nothing |
| Statements.ObjectGrantRowsMultiplicity | snowflake/account_transcribe.py:301-306 | a supported row is kept as often as it occurs, so a duplicated grant row is granted twice |
| Statements.ObjectGrantsIgnoreRoleGrants | snowflake/account_transcribe.py:301-302 | rows granted on a role have no effect on the object grants |
| Transcribe.Creations | snowflake/account_transcribe.py:348-350 | one creation per user, role and warehouse row, and nothing that is not a creation |
| Transcribe.Grants | snowflake/account_transcribe.py:351-352 | one grant per user grant row and per kept object grant row, and nothing that is not a grant |
| Transcribe.GrantsFollowCreations | snowflake/account_transcribe.py:347-352 | the `copy_account` log is the database DDL, then only creations, then only grants, so every grant follows every creation |
| Transcribe.CopyAccountIgnoresRoleGrants | snowflake/account_transcribe.py:344-352 | role-to-role grant rows do not affect `copy_account`, which never calls `role_role_grants` |
| Transcribe.CopyAccountIgnoresPlatformDdl | snowflake/account_transcribe.py:119-131 | the DDL of a platform database does not affect `copy_account`, which never fetches it |
| Transcribe.CopyAccountAsWritten | snowflake/account_transcribe.py:234 | as written, the run raises, and what it has executed is the intended log without its warehouse creations and grants |
| Transcribe.CopyAccountAsWrittenFallsShort | snowflake/account_transcribe.py:234 | as written, an account with a warehouse or a user grant is never fully copied |
| Transcribe.DatabaseLedger | snowflake/account_transcribe.py:119-133 | the database drop list has one drop per copied database, in copy order, with no duplicates and no platform database |
| Transcribe.UserLedger | snowflake/account_transcribe.py:218 | the `i`-th user drop names the user created by the `i`-th user statement |
| Transcribe.RoleLedger | snowflake/account_transcribe.py:156-159 | the `i`-th role drop names the role created by the `i`-th role statement |
| Transcribe.WarehouseLedger | snowflake/account_transcribe.py:239-244 | the `i`-th warehouse drop names the warehouse of the `i`-th warehouse statement |
| Transcribe.TargetCursor.constructor | snowflake/account_transcribe.py:106 | a fresh target cursor has executed nothing |
| Transcribe.TargetCursor.Execute | snowflake/account_transcribe.py:131 | executing appends the statement to the log and changes nothing else |
| Transcribe.TranscribeSnowflakeAccount.constructor | snowflake/account_transcribe.py:102-106 | a new session holds its source and target, and no drop list has been recorded yet |
| Transcribe.TranscribeSnowflakeAccount.ExecuteAll | snowflake/account_transcribe.py:157 | executing a statement list appends exactly that list, in order |
| Transcribe.TranscribeSnowflakeAccount.ExecuteDatabaseDdl | snowflake/account_transcribe.py:122-131 | each database's fragments are executed in turn, database by database |
| Transcribe.TranscribeSnowflakeAccount.DatabaseObjects | snowflake/account_transcribe.py:109-136 | executes the DDL of every selected database and returns the database ledger |
| Transcribe.TranscribeSnowflakeAccount.Users | snowflake/account_transcribe.py:165-221 | executes one creation per user row, in row order, and returns the user ledger |
| Transcribe.TranscribeSnowflakeAccount.Roles | snowflake/account_transcribe.py:139-162 | executes one creation per role row and returns the role ledger |
| Transcribe.TranscribeSnowflakeAccount.Warehouses | snowflake/account_transcribe.py:224-247 | executes one creation per warehouse row and returns the warehouse ledger; the corrected behaviour, see Findings |
| Transcribe.TranscribeSnowflakeAccount.UserRoleGrants | snowflake/account_transcribe.py:250-266 | executes one grant per user grant row |
| Transcribe.TranscribeSnowflakeAccount.RoleRoleGrants | snowflake/account_transcribe.py:269-287 | executes one grant per row granted on a role |
| Transcribe.TranscribeSnowflakeAccount.RoleObjectGrants | snowflake/account_transcribe.py:290-341 | executes one grant per kept object grant row, in row order |
| Transcribe.TranscribeSnowflakeAccount.CopyAccount | snowflake/account_transcribe.py:344-352 | appends exactly the `copy_account` log and records all four drop lists, each equal to its ledger |
| Transcribe.TranscribeSnowflakeAccount.DropAddedObjects | snowflake/account_transcribe.py:356-361 | with all four lists recorded, executes database, user, role and warehouse drops in that order; otherwise fails having executed nothing |
| Transcribe.DropBeforeCopy | snowflake/account_transcribe.py:356-361 | a fresh session that drops before it has copied fails, having executed nothing |
| Transcribe.CopyThenDrop | snowflake/account_transcribe.py:344-361 | a fresh session that copies and then drops executes exactly the `copy_account` log followed by the rollback log |

## Left out

- Connection setup (`parse_credentials` and the constructor's connector calls, `:65-85` and `:102-106`) is configuration and network I/O. The session takes its source rows and its target cursor as parameters instead.
- The catalog reads (`pd.read_sql`) and their introspection SQL are not modelled. This includes the server-side filters for default roles, the `SNOWFLAKE` user and the first-created user (`:145-151`, `:173-175`). Each query result is an input sequence of rows that have already passed those filters.
- Every `print` call is left out, since it is console output only.
- The `__main__` block (`:368-371`) only constructs a session from a config file and calls `copy_account`.
- `snowflake/example_usage.py` is not part of this model. It calls an interface that the modelled file does not define, and contains no logic of its own.
- Statement failures are not modelled. `execute` always succeeds, because the code catches nothing; the only failures modelled are the name-lookup error at `:234` under Findings and the missing drop lists of `drop_added_objects`, described below.
- pandas NaN and None are not distinguished. An optional column is an `Option`, and a NULL column is `None`.
- Grant schema and catalog columns are plain strings, so the model does not render a NULL column as the text `None` inside a qualified name.
- Transcribe.TranscribeSnowflakeAccount.CopyAccount: assigns the four ledger fields once all six category calls have returned, instead of right after each call. Nothing reads the fields in between, so the two orders differ only when a call raises, which the corrected model never does.
- Transcribe.TranscribeSnowflakeAccount.DropAddedObjects: in the source, an unrecorded drop list raises `AttributeError` before any statement runs. The model reports that case as `ok == false`, with nothing executed.
- Statements.FullObjectNameParts: stated only for catalog, schema and object names without `.`, because a name that contains a dot cannot be read back from its qualified form.
- Statements.RoleRoleGrantList and Statements.ObjectGrantList: their own contracts only say that every statement is a grant. Statements.RoleRoleGrantsExactly and Statements.ObjectGrantsExactly state which rows yield a statement. Statements.RoleRoleGrantsRowByRow and Statements.ObjectGrantsRowByRow state the row order and multiplicity.
- Quoting inside names is not modelled. Names are spliced into statements as they are, exactly as the f-strings do, and no escaping of quotes is modelled or claimed.

## Findings

| source | as written | input that shows it | evidently intended | confidence | as-written member | corrected member |
|---|---|---|---|---|---|---|
| snowflake/account_transcribe.py:234 | `warehouses` builds a cursor from `conn_acct_target`, a name defined nowhere in the module, so every call raises `NameError` before the first warehouse statement | any source account with one warehouse: `copy_account` stops after the database, user and role statements, and no warehouse or grant is created | the unused line removed, since the statements are executed on `self.target_cur` (`:242`) | high; not executed | Transcribe.CopyAccountAsWritten, Transcribe.CopyAccountAsWrittenFallsShort | Transcribe.TranscribeSnowflakeAccount.Warehouses, Transcribe.TranscribeSnowflakeAccount.CopyAccount |
