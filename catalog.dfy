/**
 The rows the catalog reader returns for the source account, one typed record
 per object category. Introspection SQL is not modelled: each sequence holds the
 rows of one query result, in result order, after the filters that query applies
 on the server side.
 */
module Catalog {

  datatype Option<T> = None | Some(value: T)

  /** A row of `snowflake.account_usage.users`; a NULL column is `None`. */
  datatype UserRow = UserRow(
    name: string,
    loginName: Option<string>,
    displayName: Option<string>,
    defaultRole: Option<string>,
    email: Option<string>)

  /** A row of `show warehouses`. */
  datatype WarehouseRow = WarehouseRow(name: string, size: string)

  /** A row of `snowflake.account_usage.grants_to_users`. */
  datatype UserGrantRow = UserGrantRow(role: string, granteeName: string)

  /** A row of `snowflake.account_usage.grants_to_roles`. */
  datatype RoleGrantRow = RoleGrantRow(
    privilege: string,
    grantedOn: string,
    name: string,
    tableSchema: string,
    tableCatalog: string,
    granteeName: string)

  /**
   What the source account answers to each query of one run:
   - `databases`: the `name` column of `show databases`, duplicates included;
   - `databaseDdl(d)`: the text of `get_ddl('database', d, true)`;
   - `roles`: the `NAME` column of the roles query (default roles already excluded);
   - `users`: the users query rows (the `SNOWFLAKE` user and the first-created user already excluded);
   - `warehouses`, `grantsToUsers`, `grantsToRoles`: the rows of the remaining queries.
   */
  datatype Source = Source(
    databases: seq<string>,
    databaseDdl: string -> string,
    roles: seq<string>,
    users: seq<UserRow>,
    warehouses: seq<WarehouseRow>,
    grantsToUsers: seq<UserGrantRow>,
    grantsToRoles: seq<RoleGrantRow>)
}
