/**
 The replication run: `copy_account` creates every supported category on the
 target account in a fixed order and keeps one drop list per created category;
 `drop_added_objects` runs those drop lists.
 */
module Transcribe {
  import opened Text
  import opened Catalog
  import opened Statements

  // ---------------------------------------------------------------- what one run executes

  /** The DDL fragments of every copied database, database by database. */
  function DatabaseCopy(src: Source): seq<string> {
    DatabaseStatements(SelectDatabases(src.databases), src.databaseDdl)
  }

  /** The creation statements for users, roles and warehouses, one per row, in that order. */
  function Creations(src: Source): (r: seq<string>)
    ensures |r| == |src.users| + |src.roles| + |src.warehouses|
    ensures forall i :: 0 <= i < |r| ==> IsCreate(r[i])
  {
    var u, ro, w := UserCreates(src.users), RoleCreates(src.roles), WarehouseCreates(src.warehouses);
    AllAppend(u, ro, IsCreate);
    AllAppend(u + ro, w, IsCreate);
    u + ro + w
  }

  /** The grant statements: user-to-role grants, then role-to-object grants. */
  function Grants(src: Source): (r: seq<string>)
    ensures |r| == |src.grantsToUsers| + |ObjectGrantRows(src.grantsToRoles)|
    ensures forall i :: 0 <= i < |r| ==> IsGrant(r[i])
  {
    var g, o := UserRoleGrantList(src.grantsToUsers), ObjectGrantList(src.grantsToRoles);
    AllAppend(g, o, IsGrant);
    g + o
  }

  /** What `copy_account` executes on the target: databases, users, roles,
      warehouses, user-to-role grants, role-to-object grants. */
  function CopyAccountLog(src: Source): seq<string> {
    DatabaseCopy(src) + Creations(src) + Grants(src)
  }

  /** In `copy_account`'s log the database DDL comes first, then nothing but
      creations of users, roles and warehouses, one per row, then nothing but grants. */
  lemma GrantsFollowCreations(src: Source)
    ensures var log := CopyAccountLog(src);
            var start := |DatabaseCopy(src)|;
            var grants := start + |src.users| + |src.roles| + |src.warehouses|;
            log[..start] == DatabaseCopy(src)
            && grants <= |log|
            && (forall i :: start <= i < grants ==> IsCreate(log[i]))
            && (forall i :: grants <= i < |log| ==> IsGrant(log[i]))
  {
    ConcatParts(DatabaseCopy(src), Creations(src), Grants(src), IsCreate, IsGrant);
  }

  /** Role-to-role grant rows have no effect on `copy_account`. */
  lemma CopyAccountIgnoresRoleGrants(src: Source)
    ensures CopyAccountLog(src.(grantsToRoles := Filter((g: RoleGrantRow) => !IsRoleGrant(g), src.grantsToRoles)))
         == CopyAccountLog(src)
  {
    ObjectGrantsIgnoreRoleGrants(src.grantsToRoles);
  }

  /** The DDL of a platform database has no effect on `copy_account`: it is never fetched. */
  lemma CopyAccountIgnoresPlatformDdl(src: Source, ddl': string -> string)
    requires forall d :: IsUserDatabase(d) ==> src.databaseDdl(d) == ddl'(d)
    ensures CopyAccountLog(src.(databaseDdl := ddl')) == CopyAccountLog(src)
  {
    DatabaseStatementsReadOnly(SelectDatabases(src.databases), src.databaseDdl, ddl');
  }

  /** How a run ends: what it executed on the target and whether it stopped
      with an unhandled error. */
  datatype Outcome = Outcome(executed: seq<string>, raised: bool)

  /** `copy_account` as written: `warehouses` first looks up a connection name
      that the module never defines, so the run stops with a `NameError` after
      the database, user and role statements and before the first warehouse. */
  function CopyAccountAsWritten(src: Source): (r: Outcome)
    ensures r.raised
    ensures CopyAccountLog(src) == r.executed + WarehouseCreates(src.warehouses) + Grants(src)
  {
    var executed := DatabaseCopy(src) + UserCreates(src.users) + RoleCreates(src.roles);
    AppendAssoc(DatabaseCopy(src) + UserCreates(src.users), RoleCreates(src.roles), WarehouseCreates(src.warehouses));
    AppendAssoc(DatabaseCopy(src), UserCreates(src.users) + RoleCreates(src.roles), WarehouseCreates(src.warehouses));
    AppendAssoc(DatabaseCopy(src), UserCreates(src.users), RoleCreates(src.roles));
    Outcome(executed, true)
  }

  /** As written, a source account with a warehouse or a grant is never fully
      copied: the run executes strictly fewer statements than the intended log. */
  lemma CopyAccountAsWrittenFallsShort(src: Source)
    requires |src.warehouses| > 0 || |src.grantsToUsers| > 0
    ensures |CopyAccountAsWritten(src).executed| < |CopyAccountLog(src)|
  {
    var r := CopyAccountAsWritten(src);
    assert |CopyAccountLog(src)| == |r.executed| + |src.warehouses| + |Grants(src)|;
  }

  // ---------------------------------------------------------------- the rollback ledger

  /** The database drop list: one drop per copied database, in copy order,
      never a platform database and never the same database twice. */
  function DatabaseLedger(src: Source): (r: seq<string>)
    ensures var dbs := SelectDatabases(src.databases);
            |r| == |dbs| && NoDuplicates(r)
            && forall i :: 0 <= i < |r| ==> DroppedDatabase(r[i]) == Some(dbs[i]) && IsUserDatabase(dbs[i])
  {
    var dbs := SelectDatabases(src.databases);
    var r := DatabaseDrops(dbs);
    assert NoDuplicates(r) by {
      forall i, j | 0 <= i < j < |r| ensures r[i] != r[j] {
        assert DroppedDatabase(r[i]) == Some(dbs[i]) && DroppedDatabase(r[j]) == Some(dbs[j]);
      }
    }
    r
  }

  /** The user drop list: the `i`-th drop names the user whose creation is the
      `i`-th user statement. */
  function UserLedger(src: Source): (r: seq<string>)
    ensures |r| == |src.users|
    ensures forall i :: 0 <= i < |r| ==>
      DroppedUser(r[i]) == Some(src.users[i].name) && StartsWith(UserCreates(src.users)[i], UserHead(src.users[i].name))
  {
    UserDrops(UserNames(src.users))
  }

  /** The role drop list: the `i`-th drop names the role the `i`-th role creation creates. */
  function RoleLedger(src: Source): (r: seq<string>)
    ensures |r| == |src.roles|
    ensures forall i :: 0 <= i < |r| ==> DroppedRole(r[i]) == CreatedRole(RoleCreates(src.roles)[i]) == Some(src.roles[i])
  {
    RoleDrops(src.roles)
  }

  /** The warehouse drop list: the `i`-th drop names the warehouse of the `i`-th creation. */
  function WarehouseLedger(src: Source): (r: seq<string>)
    ensures |r| == |src.warehouses|
    ensures forall i :: 0 <= i < |r| ==>
      DroppedWarehouse(r[i]) == Some(src.warehouses[i].name) && WarehouseCreates(src.warehouses)[i] == WarehouseCreate(src.warehouses[i])
  {
    WarehouseDrops(WarehouseNames(src.warehouses))
  }

  /** What `drop_added_objects` executes after `copy_account`: database drops,
      then user, role and warehouse drops. */
  function RollbackLog(src: Source): seq<string> {
    DatabaseLedger(src) + UserLedger(src) + RoleLedger(src) + WarehouseLedger(src)
  }

  // ---------------------------------------------------------------- the target account

  /** The target account's cursor: the statements executed on it, in order.
      Execution always succeeds; nothing is caught. */
  class TargetCursor {
    var executed: seq<string>

    constructor ()
      ensures executed == []
    {
      executed := [];
    }

    method Execute(sql: string)
      modifies this
      ensures executed == old(executed) + [sql]
    {
      executed := executed + [sql];
    }
  }

  /** One replication session between a source account and a target cursor.
      The four drop lists exist only once `copy_account` has recorded them. */
  class TranscribeSnowflakeAccount {
    const source: Source
    const targetCur: TargetCursor
    var dbDropSqlList: Option<seq<string>>
    var dropUserSqlList: Option<seq<string>>
    var dropRolesSqlList: Option<seq<string>>
    var dropWhList: Option<seq<string>>

    constructor (source: Source, targetCur: TargetCursor)
      ensures this.source == source && this.targetCur == targetCur
      ensures dbDropSqlList.None? && dropUserSqlList.None? && dropRolesSqlList.None? && dropWhList.None?
    {
      this.source := source;
      this.targetCur := targetCur;
      dbDropSqlList, dropUserSqlList, dropRolesSqlList, dropWhList := None, None, None, None;
    }

    /** All four drop lists have been recorded. */
    predicate LedgerRecorded()
      reads this
    {
      dbDropSqlList.Some? && dropUserSqlList.Some? && dropRolesSqlList.Some? && dropWhList.Some?
    }

    method ExecuteAll(statements: seq<string>)
      modifies targetCur
      ensures targetCur.executed == old(targetCur.executed) + statements
    {
      for i := 0 to |statements|
        invariant targetCur.executed == old(targetCur.executed) + statements[..i]
      {
        targetCur.Execute(statements[i]);
        AppendAssoc(old(targetCur.executed), statements[..i], [statements[i]]);
        assert statements[..i + 1] == statements[..i] + [statements[i]];
      }
      assert statements[..|statements|] == statements;
    }

    /** Fetches and executes the DDL fragments of each database in turn. */
    method ExecuteDatabaseDdl(databases: seq<string>)
      modifies targetCur
      ensures targetCur.executed == old(targetCur.executed) + DatabaseStatements(databases, source.databaseDdl)
    {
      ghost var perDatabase := DdlPerDatabase(databases, source.databaseDdl);
      for i := 0 to |databases|
        invariant targetCur.executed == old(targetCur.executed) + Flatten(perDatabase[..i])
      {
        var listOfCommands := DdlFragments(source.databaseDdl(databases[i]));
        ExecuteAll(listOfCommands);
        FlattenPrefixSnoc(perDatabase, i);
        AppendAssoc(old(targetCur.executed), Flatten(perDatabase[..i]), listOfCommands);
      }
      assert perDatabase[..|databases|] == perDatabase;
    }

    method DatabaseObjects() returns (dbDropSqlList: seq<string>)
      modifies targetCur
      ensures targetCur.executed == old(targetCur.executed) + DatabaseCopy(source)
      ensures dbDropSqlList == DatabaseLedger(source)
    {
      var databases := SelectDatabases(source.databases);
      ExecuteDatabaseDdl(databases);
      dbDropSqlList := DatabaseDrops(databases);
    }

    method Users() returns (dropUserSqlList: seq<string>)
      modifies targetCur
      ensures targetCur.executed == old(targetCur.executed) + UserCreates(source.users)
      ensures dropUserSqlList == UserLedger(source)
    {
      var users := source.users;
      for i := 0 to |users|
        invariant targetCur.executed == old(targetCur.executed) + MapSeq(UserCreate, users[..i])
      {
        var sql := UserCreate(users[i]);
        targetCur.Execute(sql);
        MapSeqSnoc(UserCreate, users, i);
        AppendAssoc(old(targetCur.executed), MapSeq(UserCreate, users[..i]), [sql]);
      }
      assert users[..|users|] == users;
      dropUserSqlList := UserDrops(UserNames(users));
    }

    method Roles() returns (dropRolesSqlList: seq<string>)
      modifies targetCur
      ensures targetCur.executed == old(targetCur.executed) + RoleCreates(source.roles)
      ensures dropRolesSqlList == RoleLedger(source)
    {
      var rolesSql := RoleCreates(source.roles);
      ExecuteAll(rolesSql);
      dropRolesSqlList := RoleDrops(source.roles);
    }

    method Warehouses() returns (dropWhList: seq<string>)
      modifies targetCur
      ensures targetCur.executed == old(targetCur.executed) + WarehouseCreates(source.warehouses)
      ensures dropWhList == WarehouseLedger(source)
    {
      var whList := WarehouseCreates(source.warehouses);
      ExecuteAll(whList);
      dropWhList := WarehouseDrops(WarehouseNames(source.warehouses));
    }

    method UserRoleGrants()
      modifies targetCur
      ensures targetCur.executed == old(targetCur.executed) + UserRoleGrantList(source.grantsToUsers)
    {
      var userRoleGrantList := UserRoleGrantList(source.grantsToUsers);
      ExecuteAll(userRoleGrantList);
    }

    method RoleRoleGrants()
      modifies targetCur
      ensures targetCur.executed == old(targetCur.executed) + RoleRoleGrantList(source.grantsToRoles)
    {
      var roleRoleGrantList := RoleRoleGrantList(source.grantsToRoles);
      ExecuteAll(roleRoleGrantList);
    }

    method RoleObjectGrants()
      modifies targetCur
      ensures targetCur.executed == old(targetCur.executed) + ObjectGrantList(source.grantsToRoles)
    {
      var objGrants := ObjectGrantRows(source.grantsToRoles);
      for i := 0 to |objGrants|
        invariant targetCur.executed == old(targetCur.executed) + MapSeq(ObjectGrant, objGrants[..i])
      {
        var sql := ObjectGrant(objGrants[i]);
        targetCur.Execute(sql);
        MapSeqSnoc(ObjectGrant, objGrants, i);
        AppendAssoc(old(targetCur.executed), MapSeq(ObjectGrant, objGrants[..i]), [sql]);
      }
      assert objGrants[..|objGrants|] == objGrants;
    }

    method CopyAccount()
      modifies this, targetCur
      ensures targetCur.executed == old(targetCur.executed) + CopyAccountLog(source)
      ensures LedgerRecorded()
      ensures dbDropSqlList.value == DatabaseLedger(source) && dropUserSqlList.value == UserLedger(source)
      ensures dropRolesSqlList.value == RoleLedger(source) && dropWhList.value == WarehouseLedger(source)
    {
      var dbDrops := DatabaseObjects();
      var userDrops := Users();
      var roleDrops := Roles();
      var whDrops := Warehouses();
      UserRoleGrants();
      RoleObjectGrants();
      dbDropSqlList, dropUserSqlList, dropRolesSqlList, dropWhList := Some(dbDrops), Some(userDrops), Some(roleDrops), Some(whDrops);
      AppendSix(old(targetCur.executed), DatabaseCopy(source), UserCreates(source.users), RoleCreates(source.roles),
        WarehouseCreates(source.warehouses), UserRoleGrantList(source.grantsToUsers), ObjectGrantList(source.grantsToRoles));
    }

    /** Runs the recorded drop lists; fails, having executed nothing, when they
        have not all been recorded. */
    method DropAddedObjects() returns (ok: bool)
      modifies targetCur
      ensures ok == LedgerRecorded()
      ensures ok ==> targetCur.executed == old(targetCur.executed) + dbDropSqlList.value
                       + dropUserSqlList.value + dropRolesSqlList.value + dropWhList.value
      ensures !ok ==> targetCur.executed == old(targetCur.executed)
    {
      if !LedgerRecorded() {
        return false;
      }
      var sqlDropList := dbDropSqlList.value + dropUserSqlList.value + dropRolesSqlList.value + dropWhList.value;
      ExecuteAll(sqlDropList);
      ok := true;
    }
  }

  /** A fresh session asked to drop before it has copied anything fails, having
      executed nothing. */
  method DropBeforeCopy(src: Source) returns (ok: bool, log: seq<string>)
    ensures !ok && log == []
  {
    var cur := new TargetCursor();
    var session := new TranscribeSnowflakeAccount(src, cur);
    ok := session.DropAddedObjects();
    log := cur.executed;
  }

  /** A session on a fresh target that copies the account and then drops what
      it added executes the creation log followed by the rollback log. */
  method CopyThenDrop(src: Source) returns (log: seq<string>)
    ensures log == CopyAccountLog(src) + RollbackLog(src)
  {
    var cur := new TargetCursor();
    var session := new TranscribeSnowflakeAccount(src, cur);
    session.CopyAccount();
    assert [] + CopyAccountLog(src) == CopyAccountLog(src);
    assert cur.executed == CopyAccountLog(src);
    var ok := session.DropAddedObjects();
    assert ok;
    log := cur.executed;
    assert log == CopyAccountLog(src) + DatabaseLedger(src) + UserLedger(src) + RoleLedger(src) + WarehouseLedger(src);
    AppendFour(CopyAccountLog(src), DatabaseLedger(src), UserLedger(src), RoleLedger(src), WarehouseLedger(src));
  }
}
