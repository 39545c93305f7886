/** Everything a store of the authorization server holds, as one value. */
module StoreContents {
  import opened Oauth
  import opened GrantTables

  datatype Contents = Contents(
    requests: map<Id, AuthorizationRequest>,
    codes: map<Hash, AuthorizationCode>,
    tables: Tables,
    accounts: set<Id>,
    locked: set<Id>)

  function Empty(accounts: set<Id>): Contents {
    Contents(map[], map[], Tables(map[], map[]), accounts, {})
  }

  predicate Active(c: Contents, accountId: Id) {
    accountId in c.accounts && accountId !in c.locked
  }
}
