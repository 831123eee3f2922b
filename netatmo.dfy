/**
 * The Weatherstation client object: its configuration's token entries, its
 * cached getstationsdata response and the module index and hierarchy that
 * list_modules fills in.
 *
 * The network and the files are inputs and outputs of the methods: each
 * method is given the response the endpoint would return and reports the
 * request it sent; the token store's contents are given, and the record
 * written to it is returned.
 */
module Netatmo {
  import opened Wrappers
  import opened Timestamps
  import opened Tokens
  import opened Stations

  /** The token store path used when the configuration names none. */
  const DEFAULT_TOKENSTORE: string := "tokenstore.yaml"

  class Weatherstation {
    /** client_id, client_secret, username and password of the configuration. */
    const credentials: Credentials
    /** The token store path. */
    const tokenstore: string
    /** The configuration's access_token, refresh_token and expires_in entries, once they are set. */
    var tokens: Option<TokenSet>
    /** The cached getstationsdata body; None is the empty-string sentinel. */
    var responseCache: Option<StationData>
    var modules: map<ModuleId, WeatherstationModule>
    var hierarchy: map<ModuleId, seq<ModuleId>>

    /**
     * The object as its initialiser leaves it before the token lifecycle
     * runs: no cached response and an empty hierarchy.
     */
    constructor (cred: Credentials, tokenstoreSetting: Option<string>)
      ensures credentials == cred
      ensures tokenstore == tokenstoreSetting.GetOr(DEFAULT_TOKENSTORE)
      ensures tokens == None && responseCache == None
      ensures modules == map[] && hierarchy == map[]
    {
      credentials := cred;
      tokenstore := tokenstoreSetting.GetOr(DEFAULT_TOKENSTORE);
      tokens := None;
      responseCache := None;
      modules := map[];
      hierarchy := map[];
    }

    /** The password grant: the form built from the configuration, and the checked answer. */
    method RequestToken(response: TokenResponse) returns (request: TokenRequest, r: Result<TokenJson, TokenError>)
      ensures request == PasswordGrant(credentials.clientId, credentials.clientSecret,
                                       credentials.username, credentials.password, SCOPE)
      ensures r.Success? <==> response.status == HTTP_OK
      ensures r.Success? ==> r.value == response.body
      ensures r.Failure? ==> r.error == FetchRejected(response.status)
    {
      request := PasswordGrantRequest(credentials);
      r := GetToken(response);
    }

    /** The refresh grant: sent with the configuration's refresh token; its status is not checked. */
    method RequestRefresh(response: TokenResponse) returns (request: TokenRequest, body: TokenJson)
      requires tokens.Some?
      ensures request == RefreshGrant(credentials.clientId, credentials.clientSecret, tokens.value.refreshToken)
      ensures body == response.body
    {
      request := RefreshGrantRequest(credentials, tokens.value.refreshToken);
      body := response.body;
    }

    /**
     * Makes sure the token store holds a usable token pair, and copies it
     * into the configuration.  `stored` is the token store's record (None
     * when the file does not exist), `now` the clock read for its age,
     * `stampTime` the clock read when a new store is stamped, `writer` the
     * stamp writer (`IsoFormatWriter` is the code as written).  The run is
     * the one TokenLifecycle describes; when it ends with a store, the
     * configuration's entries are that store's.  A store written goes to
     * the token store path.
     */
    method GetOrRefreshTokens(stored: Option<StoredRecord>, now: nat, stampTime: nat, writer: StampWriter,
                              response: TokenResponse)
      returns (requests: seq<TokenRequest>, result: Result<StoredRecord, TokenError>,
               written: Option<StoredRecord>, writtenTo: Option<string>)
      modifies this`tokens
      ensures TokenRun(requests, result, written) == TokenLifecycle(credentials, stored, now, stampTime, writer, response)
      ensures writtenTo == if written.Some? then Some(tokenstore) else None
      ensures result.Success? ==> tokens == Some(result.value.tokens)
      ensures result.Failure? ==> tokens == if stored.Some? then Some(stored.value.tokens) else old(tokens)
    {
      var hasChanged := false;
      requests := [];
      written := None;
      writtenTo := None;
      var store: StoredRecord;
      if stored.Some? {
        store := stored.value;
        tokens := Some(store.tokens);
        var lastUpdate := ParseStamp(store.tokensLastUpdated);
        if lastUpdate.None? {
          result := Failure(UnreadableTimestamp);
          return;
        }
        if IsStale(lastUpdate.value, store.tokens.expiresIn, now) {
          var request, newStore := RequestRefresh(response);
          requests := [request];
          if newStore.accessToken.None? {
            result := Failure(MissingKey(ACCESS_TOKEN));
            return;
          }
          store := store.(tokens := store.tokens.(accessToken := newStore.accessToken.value));
          if newStore.refreshToken.None? {
            result := Failure(MissingKey(REFRESH_TOKEN));
            return;
          }
          store := store.(tokens := store.tokens.(refreshToken := newStore.refreshToken.value));
          store := store.(tokensLastUpdated := Stamp(writer, stampTime));
          hasChanged := true;
        }
      } else {
        var request, fetched := RequestToken(response);
        requests := [request];
        if fetched.Failure? {
          result := Failure(fetched.error);
          return;
        }
        var body := fetched.value;
        if body.accessToken.None? {
          result := Failure(MissingKey(ACCESS_TOKEN));
          return;
        }
        if body.refreshToken.None? {
          result := Failure(MissingKey(REFRESH_TOKEN));
          return;
        }
        if body.expiresIn.None? {
          result := Failure(MissingKey(EXPIRES_IN));
          return;
        }
        store := StoredRecord(TokenSet(body.accessToken.value, body.refreshToken.value, body.expiresIn.value),
                              Stamp(writer, stampTime));
        hasChanged := true;
      }
      tokens := Some(store.tokens);
      result := Success(store);
      if hasChanged {
        written := Some(store);
        writtenTo := Some(tokenstore);
      }
    }

    /**
     * The getstationsdata body: fetched with the configuration's access token
     * and cached on the first call, the cached one with no request afterwards.
     */
    method GetStationData(fetched: StationData) returns (data: StationData, sent: Option<string>)
      requires tokens.Some?
      modifies this`responseCache
      ensures old(responseCache).None? ==>
        data == fetched && sent == Some(tokens.value.accessToken) && responseCache == Some(fetched)
      ensures old(responseCache).Some? ==>
        data == old(responseCache).value && sent == None && responseCache == old(responseCache)
    {
      var accessToken := tokens.value.accessToken;
      if responseCache.None? {
        sent := Some(accessToken);
        responseCache := Some(fetched);
      } else {
        sent := None;
      }
      data := responseCache.value;
    }

    /** Each station's id mapped to its module name. */
    method ListStations(fetched: StationData) returns (stationList: map<ModuleId, string>, sent: Option<string>)
      requires tokens.Some?
      modifies this`responseCache
      ensures responseCache.Some? && responseCache == old(if responseCache.None? then Some(fetched) else responseCache)
      ensures sent == old(if responseCache.None? then Some(tokens.value.accessToken) else None)
      ensures stationList == StationList(responseCache.value.devices)
      ensures forall k :: k in stationList <==>
        exists i | 0 <= i < |responseCache.value.devices| :: responseCache.value.devices[i].id == k
    {
      var data;
      data, sent := GetStationData(fetched);
      var devices := data.devices;
      stationList := map[];
      for i := 0 to |devices|
        invariant responseCache == Some(data)
        invariant stationList == Assign(map[], StationEntries(devices[..i]))
      {
        AssignStep(map[], StationEntries(devices[..i]), (devices[i].id, devices[i].moduleName));
        assert StationEntries(devices[..i + 1]) == StationEntries(devices[..i]) + [(devices[i].id, devices[i].moduleName)];
        stationList := stationList[devices[i].id := devices[i].moduleName];
      }
      assert devices[..|devices|] == devices;
      forall k ensures k in stationList <==> exists i | 0 <= i < |devices| :: devices[i].id == k {
        StationListKeys(devices, k);
      }
    }

    /**
     * Rebuilds the module index from the station data: every station and
     * every submodule by id, then the CO2 pass; adds each station's submodule
     * ids, in input order, to the hierarchy, which keeps its earlier entries.
     */
    method ListModules(fetched: StationData) returns (sent: Option<string>)
      requires tokens.Some?
      modifies this`responseCache, this`modules, this`hierarchy
      ensures responseCache.Some? && responseCache == old(if responseCache.None? then Some(fetched) else responseCache)
      ensures sent == old(if responseCache.None? then Some(tokens.value.accessToken) else None)
      ensures modules == Co2Pass(ModuleIndex(responseCache.value))
      ensures hierarchy == Assign(old(hierarchy), HierarchyEntries(responseCache.value.devices))
    {
      var data;
      data, sent := GetStationData(fetched);
      var devices, admin := data.devices, data.administrative;
      modules := map[];
      ghost var oldHierarchy := hierarchy;
      for i := 0 to |devices|
        invariant responseCache == Some(data)
        invariant modules == Assign(map[], ModuleEntries(devices[..i], admin))
        invariant hierarchy == Assign(oldHierarchy, HierarchyEntries(devices[..i]))
      {
        var station := devices[i];
        var childModules := AddStation(station, admin);
        IndexStep(devices, i, admin, oldHierarchy);
        hierarchy := hierarchy[station.id := childModules];
      }
      assert devices[..|devices|] == devices;
      FillCo2();
    }

    /** One station of list_modules: its record, then each submodule's; returns the submodule ids. */
    method AddStation(station: Device, admin: Administrative) returns (childModules: seq<ModuleId>)
      modifies this`modules
      ensures modules == Assign(old(modules)[station.id := StationRecord(station, admin)],
                                SubmoduleEntries(station.modules, admin))
      ensures childModules == ChildIds(station)
    {
      childModules := [];
      modules := modules[station.id := StationRecord(station, admin)];
      ghost var atStation := modules;
      for j := 0 to |station.modules|
        invariant childModules == ChildIds(station)[..j]
        invariant modules == Assign(atStation, SubmoduleEntries(station.modules[..j], admin))
      {
        var submodule := station.modules[j];
        childModules := childModules + [submodule.id];
        AssignStep(atStation, SubmoduleEntries(station.modules[..j], admin),
                   (submodule.id, SubmoduleRecord(submodule, admin)));
        assert SubmoduleEntries(station.modules[..j + 1], admin)
            == SubmoduleEntries(station.modules[..j], admin) + [(submodule.id, SubmoduleRecord(submodule, admin))];
        modules := modules[submodule.id := SubmoduleRecord(submodule, admin)];
      }
      assert station.modules[..|station.modules|] == station.modules;
      assert ChildIds(station)[..|station.modules|] == ChildIds(station);
    }

    /** The CO2 pass over every module of the index. */
    method FillCo2()
      modifies this`modules
      ensures modules == Co2Pass(old(modules))
    {
      ghost var index := modules;
      var pending := modules.Keys;
      while pending != {}
        invariant pending <= index.Keys && modules.Keys == index.Keys
        invariant forall k | k in index :: modules[k] == if k in pending then index[k] else WithCo2(index[k])
        decreases pending
      {
        var moduleId :| moduleId in pending;
        modules := modules[moduleId := WithCo2(modules[moduleId])];
        pending := pending - {moduleId};
      }
    }
  }

  /**
   * Two station-data requests in a row: the first is sent with the access
   * token and answered by `first`, the second is answered from the cache
   * with nothing sent, whatever the endpoint would have answered.
   */
  method StationDataIsCached(ws: Weatherstation, first: StationData, second: StationData)
    returns (d1: StationData, sent1: Option<string>, d2: StationData, sent2: Option<string>)
    requires ws.tokens.Some? && ws.responseCache.None?
    modifies ws
    ensures d1 == first && sent1 == Some(old(ws.tokens.value.accessToken))
    ensures d2 == first && sent2 == None
  {
    d1, sent1 := ws.GetStationData(first);
    d2, sent2 := ws.GetStationData(second);
  }
}
