/** The revocation endpoint (RFC 7009), whose answer depends on nothing the store holds. */
module RevocationEndpoint {
  import opened Oauth
  import G = GrantTables
  import MemoryStore

  method Handle(store: MemoryStore.Store, hashSecret: string -> Hash, token: string) returns (ok: bool)
    modifies store
    ensures ok <==> token != ""
    ensures store.View() ==
      if ok then old(store.View()).(tables := G.RevokeByToken(old(store.View()).tables, hashSecret(token)))
      else old(store.View())
  {
    if token == "" {
      return false;
    }
    store.RevokeRefreshToken(hashSecret(token));
    ok := true;
  }
}
