/**
 The object mapper: pure functions that turn catalog rows of the source account
 into the statement text executed on the target account, and into the drop
 statements kept for rollback.
 */
module Statements {
  import opened Text
  import opened Catalog

  // ---------------------------------------------------------------- parsing back

  /** The text between a known prefix and a known suffix, if `s` has both. */
  function Unwrap(s: string, prefix: string, suffix: string): (r: Option<string>)
    ensures r.Some? ==> prefix + r.value + suffix == s
  {
    if |prefix| + |suffix| <= |s| && s[..|prefix|] == prefix && s[|s| - |suffix|..] == suffix then
      var mid := s[|prefix|..|s| - |suffix|];
      assert s == s[..|prefix|] + mid + s[|s| - |suffix|..];
      Some(mid)
    else None
  }

  lemma UnwrapWrapped(prefix: string, x: string, suffix: string)
    ensures Unwrap(prefix + x + suffix, prefix, suffix) == Some(x)
  {
    var s := prefix + x + suffix;
    assert s[..|prefix|] == prefix;
    assert s[|s| - |suffix|..] == suffix;
    assert s[|prefix|..|s| - |suffix|] == x;
  }

  /** Every statement this mapper builds starts with one of these two words. */
  const CreatePrefix: string := "CREATE OR REPLACE "
  const GrantPrefix: string := "GRANT "

  predicate IsCreate(s: string) { StartsWith(s, CreatePrefix) }
  predicate IsGrant(s: string) { StartsWith(s, GrantPrefix) }

  // ---------------------------------------------------------------- databases

  /** The two platform databases that are never copied or dropped. */
  predicate IsUserDatabase(name: string) {
    name != "SNOWFLAKE" && name != "SNOWFLAKE_SAMPLE_DATA"
  }

  /** The databases whose DDL is copied: the `show databases` names without the
      platform databases, each once, in order of first appearance. */
  function SelectDatabases(names: seq<string>): (r: seq<string>)
    ensures forall i :: 0 <= i < |r| ==> IsUserDatabase(r[i]) && r[i] in names
    ensures forall i :: 0 <= i < |names| && IsUserDatabase(names[i]) ==> names[i] in r
    ensures NoDuplicates(r)
    ensures forall i, j :: 0 <= i < j < |r| ==> FirstIndex(names, r[i]) < FirstIndex(names, r[j])
  {
    var kept := Filter(IsUserDatabase, names);
    var r := Unique(kept);
    FilterUniqueOrder(IsUserDatabase, names, r);
    r
  }

  /** The characters the DDL clean-up deletes from each piece. */
  const DdlBlank: set<char> := {'\n', '\t'}

  function StripBlank(piece: string): string { RemoveChars(piece, DdlBlank) }

  predicate NonEmpty(piece: string) { piece != [] }

  /** The statements run for one database: its DDL text split on `;`, every
      newline and tab deleted from each piece, empty pieces dropped. */
  function DdlFragments(ddl: string): (r: seq<string>)
    ensures forall i :: 0 <= i < |r| ==> r[i] != [] && ';' !in r[i] && '\n' !in r[i] && '\t' !in r[i]
  {
    var pieces := Split(ddl, ';');
    var stripped := MapSeq(StripBlank, pieces);
    var r := Filter(NonEmpty, stripped);
    assert forall i :: 0 <= i < |r| ==> ';' !in r[i] by {
      forall i | 0 <= i < |r| ensures ';' !in r[i] {
        var k :| 0 <= k < |stripped| && stripped[k] == r[i];
        RemoveCharsAbsent(pieces[k], DdlBlank, ';');
      }
    }
    r
  }

  /** A database's DDL yields at most one statement more than it has `;` characters. */
  lemma DdlFragmentsCount(ddl: string)
    ensures |DdlFragments(ddl)| <= multiset(ddl)[';'] + 1
  {
    SplitCount(ddl, ';');
  }

  lemma {:induction false} StripBlankNoSemicolon(piece: string)
    requires ';' !in piece
    ensures StripBlank(piece) == RemoveChars(piece, DdlBlank + {';'})
  {
    if piece != [] {
      StripBlankNoSemicolon(piece[1..]);
    }
  }

  lemma {:induction false} DropEmptyKeepsText(ss: seq<string>)
    ensures Flatten(Filter(NonEmpty, ss)) == Flatten(ss)
  {
    if ss != [] {
      DropEmptyKeepsText(ss[1..]);
      var rest := Filter(NonEmpty, ss[1..]);
      FlattenCons(ss[0], ss[1..]);
      if NonEmpty(ss[0]) {
        assert Filter(NonEmpty, ss) == [ss[0]] + rest;
        FlattenCons(ss[0], rest);
      } else {
        assert Filter(NonEmpty, ss) == rest;
      }
    }
  }

  lemma {:induction false} StrippedPiecesKeepText(pieces: seq<string>)
    requires |pieces| >= 1
    requires forall i :: 0 <= i < |pieces| ==> ';' !in pieces[i]
    ensures Flatten(MapSeq(StripBlank, pieces)) == RemoveChars(Join(pieces, ';'), DdlBlank + {';'})
  {
    var p, rest := pieces[0], pieces[1..];
    StripBlankFirst(pieces);
    StripBlankNoSemicolon(p);
    if |pieces| == 1 {
      assert MapSeq(StripBlank, rest) == [];
    } else {
      StrippedPiecesKeepText(rest);
      RemoveSeparator(p, Join(rest, ';'), DdlBlank + {';'});
    }
  }

  lemma StripBlankFirst(pieces: seq<string>)
    requires |pieces| >= 1
    ensures Flatten(MapSeq(StripBlank, pieces)) == StripBlank(pieces[0]) + Flatten(MapSeq(StripBlank, pieces[1..]))
  {
    assert MapSeq(StripBlank, pieces) == [StripBlank(pieces[0])] + MapSeq(StripBlank, pieces[1..]);
    FlattenCons(StripBlank(pieces[0]), MapSeq(StripBlank, pieces[1..]));
  }

  lemma RemoveSeparator(p: string, j: string, drop: set<char>)
    requires ';' in drop
    ensures RemoveChars(p + [';'] + j, drop) == RemoveChars(p, drop) + RemoveChars(j, drop)
  {
    var head := RemoveChars(p, drop);
    assert RemoveChars([';'], drop) == [] by {
      assert [';'][1..] == [];
    }
    RemoveCharsAppend(p, [';'], drop);
    assert head + [] == head;
    RemoveCharsAppend(p + [';'], j, drop);
  }

  /** Nothing but separators and blanks is lost: the fragments run for a
      database, put back together, are its DDL text without `;`, newlines and tabs. */
  lemma DdlFragmentsKeepText(ddl: string)
    ensures Flatten(DdlFragments(ddl)) == RemoveChars(ddl, {';', '\n', '\t'})
  {
    var pieces := Split(ddl, ';');
    JoinSplit(ddl, ';');
    StrippedPiecesKeepText(pieces);
    DropEmptyKeepsText(MapSeq(StripBlank, pieces));
    assert DdlBlank + {';'} == {';', '\n', '\t'};
  }

  /** The drop statement kept for one database. */
  function DatabaseDrop(db: string): (s: string)
    ensures DroppedDatabase(s) == Some(db)
  {
    UnwrapWrapped("DROP DATABASE IF EXISTS '", db, "';");
    "DROP DATABASE IF EXISTS '" + db + "';"
  }

  function DroppedDatabase(s: string): Option<string> { Unwrap(s, "DROP DATABASE IF EXISTS '", "';") }

  // ---------------------------------------------------------------- roles

  function RoleCreate(role: string): (s: string)
    ensures IsCreate(s) && CreatedRole(s) == Some(role)
  {
    var s := CreatePrefix + "ROLE " + role;
    StartsWithAppend(CreatePrefix + "ROLE ", CreatePrefix, role);
    UnwrapWrapped(CreatePrefix + "ROLE ", role, "");
    assert s + "" == s;
    s
  }

  function CreatedRole(s: string): Option<string> { Unwrap(s, CreatePrefix + "ROLE ", "") }

  function RoleDrop(role: string): (s: string)
    ensures DroppedRole(s) == Some(role)
  {
    UnwrapWrapped("DROP ROLE IF EXISTS ", role, ";");
    "DROP ROLE IF EXISTS " + role + ";"
  }

  function DroppedRole(s: string): Option<string> { Unwrap(s, "DROP ROLE IF EXISTS ", ";") }

  // ---------------------------------------------------------------- users

  /** The four optional columns a created user carries over. */
  datatype UserField = LoginName | DisplayName | DefaultRole | Email

  function FieldOf(u: UserRow, f: UserField): Option<string> {
    match f
    case LoginName => u.loginName
    case DisplayName => u.displayName
    case DefaultRole => u.defaultRole
    case Email => u.email
  }

  function WithField(u: UserRow, f: UserField, value: Option<string>): (v: UserRow)
    ensures FieldOf(v, f) == value && v.name == u.name
    ensures forall g :: g != f ==> FieldOf(v, g) == FieldOf(u, g)
  {
    match f
    case LoginName => u.(loginName := value)
    case DisplayName => u.(displayName := value)
    case DefaultRole => u.(defaultRole := value)
    case Email => u.(email := value)
  }

  /** The clause one optional column contributes to `CREATE USER`: nothing for
      a NULL column; otherwise `key=value`, with the value single-quoted except
      for `default_role`. */
  function UserClause(f: UserField, value: Option<string>): (c: string)
    ensures c == "" <==> value.None?
    ensures value.Some? && f == LoginName ==> Unwrap(c, "login_name='", "'") == Some(value.value)
    ensures value.Some? && f == DisplayName ==> Unwrap(c, " display_name='", "'") == Some(value.value)
    ensures value.Some? && f == DefaultRole ==> Unwrap(c, " default_role=", "") == Some(value.value)
    ensures value.Some? && f == Email ==> Unwrap(c, " email='", "'") == Some(value.value)
  {
    match value
    case None => ""
    case Some(v) =>
      match f
      case LoginName => UnwrapWrapped("login_name='", v, "'"); "login_name='" + v + "'"
      case DisplayName => UnwrapWrapped(" display_name='", v, "'"); " display_name='" + v + "'"
      case DefaultRole =>
        UnwrapWrapped(" default_role=", v, "");
        assert " default_role=" + v + "" == " default_role=" + v;
        " default_role=" + v
      case Email => UnwrapWrapped(" email='", v, "'"); " email='" + v + "'"
  }

  /** The placeholder password every copied user gets. */
  const UserPassword: string := "'abc123'"

  /** The white space the source's line continuation leaves between the
      `login_name` and `display_name` clauses. */
  const ContinuationIndent: string := "                        "

  /** The head of `CREATE USER`: the name in double quotes, then the placeholder password. */
  function UserHead(name: string): (h: string)
    ensures IsCreate(h)
    ensures Unwrap(h, CreatePrefix + "USER \"", "\" password=" + UserPassword + " ") == Some(name)
  {
    var tail := "\" password=" + UserPassword + " ";
    StartsWithAppend(CreatePrefix + "USER \"", CreatePrefix, name + tail);
    UnwrapWrapped(CreatePrefix + "USER \"", name, tail);
    CreatePrefix + "USER \"" + name + tail
  }

  /** The pieces `CREATE USER` is assembled from, in order: the head, then each
      optional clause with the separators the source puts between them. */
  function UserSegments(u: UserRow): seq<string> {
    [UserHead(u.name), UserClause(LoginName, u.loginName), " " + ContinuationIndent,
     UserClause(DisplayName, u.displayName), " ", UserClause(DefaultRole, u.defaultRole),
     " ", UserClause(Email, u.email)]
  }

  /** Where each optional clause sits among the segments. */
  function ClauseSlot(f: UserField): (k: nat)
    ensures 1 <= k < 8
  {
    match f
    case LoginName => 1
    case DisplayName => 3
    case DefaultRole => 5
    case Email => 7
  }

  function UserCreate(u: UserRow): (s: string)
    ensures IsCreate(s) && StartsWith(s, UserHead(u.name))
  {
    var ss := UserSegments(u);
    FlattenCons(ss[0], ss[1..]);
    assert [ss[0]] + ss[1..] == ss;
    StartsWithAppend(UserHead(u.name), CreatePrefix, Flatten(ss[1..]));
    assert StartsWith(ss[0] + Flatten(ss[1..]), ss[0]);
    Flatten(ss)
  }

  lemma UserSegmentsWithField(u: UserRow, f: UserField, value: Option<string>)
    ensures UserSegments(u)[ClauseSlot(f)] == UserClause(f, FieldOf(u, f))
    ensures UserSegments(WithField(u, f, value)) == UserSegments(u)[ClauseSlot(f) := UserClause(f, value)]
  {
  }

  /** A user with no optional column gets a statement with no clause at all:
      only the name, the placeholder password and separating blanks. */
  lemma UserCreateAllAbsent(u: UserRow)
    requires u.loginName.None? && u.displayName.None? && u.defaultRole.None? && u.email.None?
    ensures UserCreate(u) == UserHead(u.name) + " " + ContinuationIndent + "  "
  {
    var ss := UserSegments(u);
    FlattenBlankSegments(ss);
    assert " " + " " == "  ";
    AppendAssoc(UserHead(u.name), " ", ContinuationIndent);
    AppendAssoc(UserHead(u.name), ss[2], "  ");
  }

  /** Eight segments whose odd-numbered ones are empty flatten to the
      even-numbered ones. */
  lemma FlattenBlankSegments<T>(ss: seq<seq<T>>)
    requires |ss| == 8 && ss[1] == [] && ss[3] == [] && ss[5] == [] && ss[7] == []
    ensures Flatten(ss) == ss[0] + (ss[2] + (ss[4] + ss[6]))
  {
    var e: seq<seq<T>> := [];
    assert ss[8..] == e;
    FlattenBeforeEmpty(ss, 6);
    assert Flatten(ss[6..]) == ss[6];
    FlattenBeforeEmpty(ss, 4);
    FlattenBeforeEmpty(ss, 2);
    FlattenBeforeEmpty(ss, 0);
    assert ss[0..] == ss;
  }

  /** A segment followed by an empty one flattens to the segment and then the rest. */
  lemma FlattenBeforeEmpty<T>(ss: seq<seq<T>>, k: nat)
    requires k + 1 < |ss| && ss[k + 1] == []
    ensures Flatten(ss[k..]) == ss[k] + Flatten(ss[k + 2..])
  {
    FlattenFrom(ss, k);
    FlattenFrom(ss, k + 1);
  }

  /** A present column shows up in the statement as its clause. */
  lemma UserCreateShowsFields(u: UserRow, f: UserField)
    requires FieldOf(u, f).Some?
    ensures Contains(UserCreate(u), UserClause(f, FieldOf(u, f)))
  {
    UserSegmentsWithField(u, f, None);
    FlattenContains(UserSegments(u), ClauseSlot(f));
  }

  /** A NULL column contributes the empty string: giving it a value inserts
      exactly its clause into the statement, after the head, and changes nothing else. */
  lemma UserClauseInsertion(u: UserRow, f: UserField, v: string)
    ensures var absent := UserCreate(WithField(u, f, None));
            var present := UserCreate(WithField(u, f, Some(v)));
            exists k :: |UserHead(u.name)| <= k <= |absent|
                     && present == absent[..k] + UserClause(f, Some(v)) + absent[k..]
  {
    var k, c := ClauseSlot(f), UserClause(f, Some(v));
    var ss := UserSegments(WithField(u, f, None));
    UserSegmentsFill(u, f, v);
    FlattenFillEmpty(ss, k, c);
    var off := |Flatten(ss[..k])|;
    assert ss[..k][0] == ss[0];
    assert |UserHead(u.name)| <= off;
    var absent := UserCreate(WithField(u, f, None));
    assert absent == Flatten(ss);
    assert UserCreate(WithField(u, f, Some(v))) == Flatten(ss[k := c]);
    assert UserCreate(WithField(u, f, Some(v))) == absent[..off] + c + absent[off..];
  }

  /** Without the column its slot is empty; with it the slot holds its clause,
      and the head is unchanged. */
  lemma UserSegmentsFill(u: UserRow, f: UserField, v: string)
    ensures var ss := UserSegments(WithField(u, f, None));
            ss[0] == UserHead(u.name) && ss[ClauseSlot(f)] == [] &&
            UserSegments(WithField(u, f, Some(v))) == ss[ClauseSlot(f) := UserClause(f, Some(v))]
  {
    var k := ClauseSlot(f);
    UserSegmentsWithField(u, f, None);
    UserSegmentsWithField(u, f, Some(v));
    var ss := UserSegments(WithField(u, f, None));
    assert ss == UserSegments(u)[k := ""];
    assert ss[k := UserClause(f, Some(v))] == UserSegments(u)[k := UserClause(f, Some(v))];
  }

  function UserDrop(name: string): (s: string)
    ensures DroppedUser(s) == Some(name)
  {
    UnwrapWrapped("DROP USER IF EXISTS '", name, "';");
    "DROP USER IF EXISTS '" + name + "';"
  }

  function DroppedUser(s: string): Option<string> { Unwrap(s, "DROP USER IF EXISTS '", "';") }

  // ---------------------------------------------------------------- warehouses

  /** A warehouse is created with its size, suspended. */
  function WarehouseCreate(w: WarehouseRow): (s: string)
    ensures IsCreate(s)
    ensures Unwrap(s, CreatePrefix + "warehouse ", " initially_suspended=true;") == Some(w.name + " warehouse_size='" + w.size + "'")
  {
    var mid := w.name + " warehouse_size='" + w.size + "'";
    StartsWithAppend(CreatePrefix + "warehouse ", CreatePrefix, mid + " initially_suspended=true;");
    UnwrapWrapped(CreatePrefix + "warehouse ", mid, " initially_suspended=true;");
    CreatePrefix + "warehouse " + mid + " initially_suspended=true;"
  }

  /** The warehouse drop statement; unlike the other drops it has no `IF EXISTS`. */
  function WarehouseDrop(name: string): (s: string)
    ensures DroppedWarehouse(s) == Some(name)
  {
    UnwrapWrapped("DROP WAREHOUSE ", name, ";");
    "DROP WAREHOUSE " + name + ";"
  }

  function DroppedWarehouse(s: string): Option<string> { Unwrap(s, "DROP WAREHOUSE ", ";") }

  // ---------------------------------------------------------------- grants

  function UserRoleGrant(g: UserGrantRow): (s: string)
    ensures IsGrant(s)
    ensures Unwrap(s, GrantPrefix + "ROLE \"", "\";") == Some(g.role + "\" TO USER \"" + g.granteeName)
  {
    var mid := g.role + "\" TO USER \"" + g.granteeName;
    StartsWithAppend(GrantPrefix + "ROLE \"", GrantPrefix, mid + "\";");
    UnwrapWrapped(GrantPrefix + "ROLE \"", mid, "\";");
    GrantPrefix + "ROLE \"" + mid + "\";"
  }

  /** Role-to-role grants are the `grants_to_roles` rows granted on a role. */
  predicate IsRoleGrant(g: RoleGrantRow) { g.grantedOn == "ROLE" }

  function RoleRoleGrant(g: RoleGrantRow): (s: string)
    ensures IsGrant(s)
    ensures Unwrap(s, GrantPrefix + "ROLE \"", "\";") == Some(g.name + "\" TO ROLE \"" + g.granteeName)
  {
    var mid := g.name + "\" TO ROLE \"" + g.granteeName;
    StartsWithAppend(GrantPrefix + "ROLE \"", GrantPrefix, mid + "\";");
    UnwrapWrapped(GrantPrefix + "ROLE \"", mid, "\";");
    GrantPrefix + "ROLE \"" + mid + "\";"
  }

  /** Object grants are copied only for these object types ... */
  predicate IsSupportedObjectType(t: string) {
    t == "WAREHOUSE" || t == "DATABASE" || t == "SCHEMA" || t == "TABLE" || t == "VIEW"
  }

  /** ... and only for objects other than the platform's own. */
  predicate IsSupportedObjectGrant(g: RoleGrantRow) {
    IsSupportedObjectType(g.grantedOn) && g.name != "SNOWFLAKE_SAMPLE_DATA" && g.name != "SNOWFLAKE"
  }

  /** The name an object grant refers to: tables and views by their three-part
      name, schemas by their two-part name, anything else by its bare name. */
  function FullObjectName(g: RoleGrantRow): string {
    if g.grantedOn == "TABLE" || g.grantedOn == "VIEW" then g.tableCatalog + "." + g.tableSchema + "." + g.name
    else if g.grantedOn == "SCHEMA" then g.tableCatalog + "." + g.name
    else g.name
  }

  /** The qualification rule, read back: splitting the object name on `.` gives
      catalog, schema and name for a table or a view, catalog and name for a
      schema, and the bare name for a warehouse or a database. */
  lemma FullObjectNameParts(g: RoleGrantRow)
    requires '.' !in g.tableCatalog && '.' !in g.tableSchema && '.' !in g.name
    ensures Split(FullObjectName(g), '.') ==
      if g.grantedOn == "TABLE" || g.grantedOn == "VIEW" then [g.tableCatalog, g.tableSchema, g.name]
      else if g.grantedOn == "SCHEMA" then [g.tableCatalog, g.name]
      else [g.name]
  {
    var db, schema, name := g.tableCatalog, g.tableSchema, g.name;
    if g.grantedOn == "TABLE" || g.grantedOn == "VIEW" {
      var parts := [db, schema, name];
      assert parts[1..] == [schema, name] && parts[1..][1..] == [name];
      assert Join([name], '.') == name;
      assert Join([schema, name], '.') == schema + ['.'] + name;
      assert Join(parts, '.') == db + ['.'] + (schema + ['.'] + name);
      assert db + "." + schema + "." + name == db + ['.'] + (schema + ['.'] + name);
      SplitJoin(parts, '.');
    } else if g.grantedOn == "SCHEMA" {
      var parts := [db, name];
      assert parts[1..] == [name];
      assert Join([name], '.') == name;
      assert Join(parts, '.') == db + ['.'] + name;
      SplitJoin(parts, '.');
    } else {
      SplitNoSeparator(name, '.');
    }
  }

  /** Everything of an object grant up to the grantee. */
  function ObjectGrantHead(g: RoleGrantRow): (h: string)
    ensures IsGrant(h)
    ensures Unwrap(h, GrantPrefix, " TO ROLE  " + g.granteeName) == Some(g.privilege + " ON " + g.grantedOn + " " + FullObjectName(g))
  {
    var mid := g.privilege + " ON " + g.grantedOn + " " + FullObjectName(g);
    var tail := " TO ROLE  " + g.granteeName;
    StartsWithAppend(GrantPrefix, GrantPrefix, mid + tail);
    UnwrapWrapped(GrantPrefix, mid, tail);
    assert GrantPrefix + (mid + tail) == GrantPrefix + mid + tail;
    GrantPrefix + (mid + tail)
  }

  /** An object grant; an `OWNERSHIP` grant, and only such a grant, also
      revokes the grants currently on the object. */
  function ObjectGrant(g: RoleGrantRow): (s: string)
    ensures IsGrant(s) && StartsWith(s, ObjectGrantHead(g))
    ensures s[|ObjectGrantHead(g)|..] == " REVOKE CURRENT GRANTS; " <==> g.privilege == "OWNERSHIP"
    ensures g.privilege != "OWNERSHIP" ==> s[|ObjectGrantHead(g)|..] == "; "
  {
    var h := ObjectGrantHead(g);
    var tail := if g.privilege == "OWNERSHIP" then " REVOKE CURRENT GRANTS; " else "; ";
    assert (h + tail)[..|h|] == h && (h + tail)[|h|..] == tail;
    StartsWithAppend(h, GrantPrefix, tail);
    h + tail
  }

  // ---------------------------------------------------------------- per-category lists

  function DatabaseDrops(dbs: seq<string>): (r: seq<string>)
    ensures |r| == |dbs| && forall i :: 0 <= i < |dbs| ==> DroppedDatabase(r[i]) == Some(dbs[i])
  {
    MapSeq(DatabaseDrop, dbs)
  }
  /** The fragment list of each database, database by database. */
  function DdlPerDatabase(dbs: seq<string>, ddl: string -> string): (r: seq<seq<string>>)
    ensures |r| == |dbs| && forall i :: 0 <= i < |dbs| ==> r[i] == DdlFragments(ddl(dbs[i]))
  {
    MapSeq((db: string) => DdlFragments(ddl(db)), dbs)
  }

  /** All DDL fragments of the given databases, in database order. */
  function DatabaseStatements(dbs: seq<string>, ddl: string -> string): seq<string> {
    Flatten(DdlPerDatabase(dbs, ddl))
  }

  /** The DDL of a database outside the list has no effect on what is run. */
  lemma DatabaseStatementsReadOnly(dbs: seq<string>, ddl: string -> string, ddl': string -> string)
    requires forall i :: 0 <= i < |dbs| ==> ddl(dbs[i]) == ddl'(dbs[i])
    ensures DatabaseStatements(dbs, ddl) == DatabaseStatements(dbs, ddl')
  {
    var a, b := DdlPerDatabase(dbs, ddl), DdlPerDatabase(dbs, ddl');
    forall i | 0 <= i < |dbs| ensures a[i] == b[i] {
      assert ddl(dbs[i]) == ddl'(dbs[i]);
    }
    assert a == b;
  }

  function RoleCreates(roles: seq<string>): (r: seq<string>)
    ensures |r| == |roles| && forall i :: 0 <= i < |roles| ==> IsCreate(r[i]) && CreatedRole(r[i]) == Some(roles[i])
  {
    MapSeq(RoleCreate, roles)
  }

  function RoleDrops(roles: seq<string>): (r: seq<string>)
    ensures |r| == |roles| && forall i :: 0 <= i < |roles| ==> DroppedRole(r[i]) == Some(roles[i])
  {
    MapSeq(RoleDrop, roles)
  }

  function UserNames(users: seq<UserRow>): (r: seq<string>)
    ensures |r| == |users| && forall i :: 0 <= i < |users| ==> r[i] == users[i].name
  {
    MapSeq((u: UserRow) => u.name, users)
  }

  function UserCreates(users: seq<UserRow>): (r: seq<string>)
    ensures |r| == |users| && forall i :: 0 <= i < |users| ==> IsCreate(r[i]) && StartsWith(r[i], UserHead(users[i].name))
  {
    MapSeq(UserCreate, users)
  }

  function UserDrops(names: seq<string>): (r: seq<string>)
    ensures |r| == |names| && forall i :: 0 <= i < |names| ==> DroppedUser(r[i]) == Some(names[i])
  {
    MapSeq(UserDrop, names)
  }

  function WarehouseNames(whs: seq<WarehouseRow>): (r: seq<string>)
    ensures |r| == |whs| && forall i :: 0 <= i < |whs| ==> r[i] == whs[i].name
  {
    MapSeq((w: WarehouseRow) => w.name, whs)
  }

  function WarehouseCreates(whs: seq<WarehouseRow>): (r: seq<string>)
    ensures |r| == |whs| && forall i :: 0 <= i < |whs| ==> IsCreate(r[i]) && r[i] == WarehouseCreate(whs[i])
  {
    MapSeq(WarehouseCreate, whs)
  }

  function WarehouseDrops(names: seq<string>): (r: seq<string>)
    ensures |r| == |names| && forall i :: 0 <= i < |names| ==> DroppedWarehouse(r[i]) == Some(names[i])
  {
    MapSeq(WarehouseDrop, names)
  }

  function UserRoleGrantList(rows: seq<UserGrantRow>): (r: seq<string>)
    ensures |r| == |rows| && forall i :: 0 <= i < |rows| ==> IsGrant(r[i]) && r[i] == UserRoleGrant(rows[i])
  {
    MapSeq(UserRoleGrant, rows)
  }

  function RoleRoleGrantList(rows: seq<RoleGrantRow>): (r: seq<string>)
    ensures forall i :: 0 <= i < |r| ==> IsGrant(r[i])
  {
    MapSeq(RoleRoleGrant, Filter(IsRoleGrant, rows))
  }

  /** The rows `role_object_grants` turns into statements, in row order. */
  function ObjectGrantRows(rows: seq<RoleGrantRow>): (r: seq<RoleGrantRow>)
    ensures forall i :: 0 <= i < |r| ==> IsSupportedObjectGrant(r[i]) && r[i] in rows
    ensures forall i :: 0 <= i < |rows| && IsSupportedObjectGrant(rows[i]) ==> rows[i] in r
  {
    Filter(IsSupportedObjectGrant, rows)
  }

  function ObjectGrantList(rows: seq<RoleGrantRow>): (r: seq<string>)
    ensures forall i :: 0 <= i < |r| ==> IsGrant(r[i])
  {
    MapSeq(ObjectGrant, ObjectGrantRows(rows))
  }

  /** Role-to-role grants: one statement per role-type grant row, and each
      statement comes from such a row. */
  lemma RoleRoleGrantsExactly(rows: seq<RoleGrantRow>)
    ensures forall i :: 0 <= i < |rows| && IsRoleGrant(rows[i]) ==> RoleRoleGrant(rows[i]) in RoleRoleGrantList(rows)
    ensures forall s :: s in RoleRoleGrantList(rows) ==> exists g :: g in rows && IsRoleGrant(g) && s == RoleRoleGrant(g)
  {
    MapFilterExactly(RoleRoleGrant, IsRoleGrant, rows);
  }

  /** Object grants: one statement per supported grant row, and each statement
      comes from such a row. */
  lemma ObjectGrantsExactly(rows: seq<RoleGrantRow>)
    ensures forall i :: 0 <= i < |rows| && IsSupportedObjectGrant(rows[i]) ==> ObjectGrant(rows[i]) in ObjectGrantList(rows)
    ensures forall s :: s in ObjectGrantList(rows) ==> exists g :: g in rows && IsSupportedObjectGrant(g) && s == ObjectGrant(g)
  {
    MapFilterExactly(ObjectGrant, IsSupportedObjectGrant, rows);
  }

  /** Role-to-role grants follow the rows one by one: a row granted on a role
      contributes its grant in its place, any other row nothing. */
  lemma RoleRoleGrantsRowByRow(a: seq<RoleGrantRow>, g: RoleGrantRow, b: seq<RoleGrantRow>)
    ensures RoleRoleGrantList(a + [g] + b)
         == RoleRoleGrantList(a) + (if IsRoleGrant(g) then [RoleRoleGrant(g)] else []) + RoleRoleGrantList(b)
  {
    MapFilterRowByRow(RoleRoleGrant, IsRoleGrant, a, g, b);
  }

  /** Object grants follow the rows one by one: a supported row is kept, and
      contributes its grant, in its place; any other row contributes nothing. */
  lemma ObjectGrantsRowByRow(a: seq<RoleGrantRow>, g: RoleGrantRow, b: seq<RoleGrantRow>)
    ensures ObjectGrantRows(a + [g] + b)
         == ObjectGrantRows(a) + (if IsSupportedObjectGrant(g) then [g] else []) + ObjectGrantRows(b)
    ensures ObjectGrantList(a + [g] + b)
         == ObjectGrantList(a) + (if IsSupportedObjectGrant(g) then [ObjectGrant(g)] else []) + ObjectGrantList(b)
  {
    FilterRowByRow(IsSupportedObjectGrant, a, g, b);
    MapFilterRowByRow(ObjectGrant, IsSupportedObjectGrant, a, g, b);
  }

  /** A supported row is kept as often as it occurs, so a duplicated grant row
      is granted twice. */
  lemma ObjectGrantRowsMultiplicity(rows: seq<RoleGrantRow>)
    ensures forall g :: multiset(ObjectGrantRows(rows))[g] == if IsSupportedObjectGrant(g) then multiset(rows)[g] else 0
  {
    FilterMultiplicity(IsSupportedObjectGrant, rows);
  }

  /** A grant row granted on a role is never an object grant. */
  lemma ObjectGrantsIgnoreRoleGrants(rows: seq<RoleGrantRow>)
    ensures ObjectGrantList(Filter((g: RoleGrantRow) => !IsRoleGrant(g), rows)) == ObjectGrantList(rows)
  {
    FilterWeakerFirst(IsSupportedObjectGrant, (g: RoleGrantRow) => !IsRoleGrant(g), rows);
  }
}
