/**
 * The two ways the module keeps PCC SDK clients: a service holding one
 * client per site id (class PccApiClient, with a refresh flag), and a
 * lazily set single client shared by the classes that use PccApiTrait.
 */
module ApiClients {

  /** An SDK client, configured once with a site id and a site token. */
  class PccClient {
    const siteId: string
    const siteToken: string

    /** `new PccClient(new PccClientConfig($siteId, $siteToken))`. */
    constructor (siteId: string, siteToken: string)
      ensures this.siteId == siteId && this.siteToken == siteToken
    {
      this.siteId := siteId;
      this.siteToken := siteToken;
    }
  }

  /**
   * The service's client list: site id to client. PHP stores a canonical
   * decimal site id under an integer key, but distinct strings still give
   * distinct keys, so a map over the strings keys the clients the same way.
   * A missing entry and the never-initialised list are both "empty".
   */
  class PccApiClient {
    var clients: map<string, PccClient>

    /** Every stored client was made for the site id it is stored under. */
    ghost predicate Valid()
      reads this
    {
      forall id :: id in clients ==> clients[id].siteId == id
    }

    constructor ()
      ensures Valid() && clients == map[]
    {
      clients := map[];
    }

    /**
     * `getPccClient`: without `refresh`, the stored client for the site id
     * when there is one, whatever the token; otherwise a new client for the
     * id and token, stored under the id. The other site ids keep their clients.
     */
    method GetPccClient(siteId: string, siteToken: string, refresh: bool) returns (client: PccClient)
      requires Valid()
      modifies this
      ensures Valid() && client.siteId == siteId
      ensures !refresh && siteId in old(clients) ==> client == old(clients)[siteId] && clients == old(clients)
      ensures refresh || siteId !in old(clients) ==>
        fresh(client) && client.siteId == siteId && client.siteToken == siteToken
        && clients == old(clients)[siteId := client]
      ensures siteId in clients && clients[siteId] == client
      ensures forall id :: id != siteId ==> (id in clients <==> id in old(clients))
      ensures forall id :: id != siteId && id in old(clients) ==> clients[id] == old(clients)[id]
    {
      if clients != map[] && siteId in clients && !refresh {
        return clients[siteId];
      }
      client := new PccClient(siteId, siteToken);
      clients := clients[siteId := client];
    }

    /**
     * Two calls in a row for the same site id without `refresh` give the same
     * client, even when the second passes another token.
     */
    method GetPccClientTwice(siteId: string, token1: string, token2: string) returns (first: PccClient, second: PccClient)
      requires Valid()
      modifies this
      ensures Valid()
      ensures second == first && first.siteId == siteId
      ensures siteId !in old(clients) ==> first.siteToken == token1
      ensures clients == old(clients)[siteId := first]
    {
      first := GetPccClient(siteId, token1, false);
      second := GetPccClient(siteId, token2, false);
    }
  }

  /**
   * The `pccClient` property of a class using PccApiTrait: unset until the
   * first `getPccClient`, then that client for good.
   */
  class ClientHolder {
    var client: PccClient?

    constructor ()
      ensures client == null
    {
      client := null;
    }

    /**
     * `getPccClient`: the first call creates the client from the id and
     * token it is given; every later call returns that same client and
     * ignores its arguments.
     */
    method GetPccClient(siteId: string, siteToken: string) returns (r: PccClient)
      modifies this
      ensures old(client) == null ==> fresh(r) && r.siteId == siteId && r.siteToken == siteToken
      ensures old(client) != null ==> r == old(client)
      ensures client == r
    {
      if client == null {
        client := new PccClient(siteId, siteToken);
      }
      r := client;
    }

    /**
     * A later call for another site, with another token, still gets the
     * client of the first site; the property is never reassigned.
     */
    method GetPccClientForTwoSites(id1: string, token1: string, id2: string, token2: string)
      returns (first: PccClient, second: PccClient)
      requires client == null
      modifies this
      ensures second == first && client == first
      ensures first.siteId == id1 && first.siteToken == token1
      ensures second.siteId == id1 && second.siteToken == token1
    {
      first := GetPccClient(id1, token1);
      second := GetPccClient(id2, token2);
    }
  }
}
