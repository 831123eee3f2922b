/**
 * The OAuth2 token lifecycle of the weather-station client: fetch a token
 * pair by password grant when there is no token store, refresh it when the
 * stored pair is too old, and reuse it otherwise.
 *
 * The token endpoint is not called here: a run is given the response the
 * endpoint returns to the one request it may make, and it reports the
 * requests it made.  The token store file is given as the record read from
 * it (or its absence), and the write is reported as the record written.
 */
module Tokens {
  import opened Wrappers
  import opened Timestamps

  /** `requests.codes.ok`. */
  const HTTP_OK: int := 200
  /** The scope every password grant asks for. */
  const SCOPE: string := "read_station"

  const ACCESS_TOKEN: string := "access_token"
  const REFRESH_TOKEN: string := "refresh_token"
  const EXPIRES_IN: string := "expires_in"

  /** The client's entries of the configuration file. */
  datatype Credentials = Credentials(clientId: string, clientSecret: string, username: string, password: string)

  /** The form posted to the token endpoint. */
  datatype TokenRequest =
    | PasswordGrant(clientId: string, clientSecret: string, username: string, password: string, scope: string)
    | RefreshGrant(clientId: string, clientSecret: string, refreshToken: string)

  /** The JSON body of a token-endpoint response; a member is None when the body lacks that key. */
  datatype TokenJson = TokenJson(accessToken: Option<string>, refreshToken: Option<string>, expiresIn: Option<int>)

  datatype TokenResponse = TokenResponse(status: int, body: TokenJson)

  /** The three token entries that the store and the configuration share. */
  datatype TokenSet = TokenSet(accessToken: string, refreshToken: string, expiresIn: int)

  /** The token store: the token entries and when they were last updated. */
  datatype StoredRecord = StoredRecord(tokens: TokenSet, tokensLastUpdated: StampText)

  /**
   * How a run ends without a token store: the password grant was refused
   * (the process exits), a response lacked a key, or the stored timestamp
   * could not be parsed.
   */
  datatype TokenError = FetchRejected(status: int) | MissingKey(key: string) | UnreadableTimestamp

  /** What one run did: the requests it sent, the final store or the error, and the store it wrote. */
  datatype TokenRun = TokenRun(requests: seq<TokenRequest>, result: Result<StoredRecord, TokenError>, written: Option<StoredRecord>)

  /** The password-grant form. */
  function PasswordGrantRequest(cred: Credentials): (req: TokenRequest)
    ensures req.PasswordGrant? && req.scope == SCOPE
    ensures req.clientId == cred.clientId && req.clientSecret == cred.clientSecret
    ensures req.username == cred.username && req.password == cred.password
  {
    PasswordGrant(cred.clientId, cred.clientSecret, cred.username, cred.password, SCOPE)
  }

  /** The refresh-grant form; it carries no username or password. */
  function RefreshGrantRequest(cred: Credentials, refreshToken: string): (req: TokenRequest)
    ensures req.RefreshGrant? && req.refreshToken == refreshToken
    ensures req.clientId == cred.clientId && req.clientSecret == cred.clientSecret
  {
    RefreshGrant(cred.clientId, cred.clientSecret, refreshToken)
  }

  /** The password grant's answer: its body when the status is OK, the exit otherwise. */
  function GetToken(response: TokenResponse): (r: Result<TokenJson, TokenError>)
    ensures r.Success? <==> response.status == HTTP_OK
    ensures r.Success? ==> r.value == response.body
    ensures r.Failure? ==> r.error == FetchRejected(response.status)
  {
    if response.status != HTTP_OK then Failure(FetchRejected(response.status)) else Success(response.body)
  }

  /** A store built from a password-grant body, stamped at `stampTime` by `writer`. */
  function NewStore(body: TokenJson, stampTime: nat, writer: StampWriter): (r: Result<StoredRecord, TokenError>)
    ensures r.Success? <==> body.accessToken.Some? && body.refreshToken.Some? && body.expiresIn.Some?
    ensures r.Success? ==>
      r.value == StoredRecord(TokenSet(body.accessToken.value, body.refreshToken.value, body.expiresIn.value),
                              Stamp(writer, stampTime))
    ensures r.Failure? ==> r.error.MissingKey?
  {
    if body.accessToken.None? then Failure(MissingKey(ACCESS_TOKEN))
    else if body.refreshToken.None? then Failure(MissingKey(REFRESH_TOKEN))
    else if body.expiresIn.None? then Failure(MissingKey(EXPIRES_IN))
    else Success(StoredRecord(TokenSet(body.accessToken.value, body.refreshToken.value, body.expiresIn.value),
                              Stamp(writer, stampTime)))
  }

  /**
   * The store after a refresh: the two tokens of the refresh body replace the
   * stored ones, the stored expires_in stays, and the stamp is `stampTime`,
   * written by `writer`.
   */
  function RefreshedStore(record: StoredRecord, body: TokenJson, stampTime: nat, writer: StampWriter)
    : (r: Result<StoredRecord, TokenError>)
    ensures r.Success? <==> body.accessToken.Some? && body.refreshToken.Some?
    ensures r.Success? ==>
      r.value == StoredRecord(TokenSet(body.accessToken.value, body.refreshToken.value, record.tokens.expiresIn),
                              Stamp(writer, stampTime))
    ensures r.Failure? ==> r.error.MissingKey?
  {
    if body.accessToken.None? then Failure(MissingKey(ACCESS_TOKEN))
    else if body.refreshToken.None? then Failure(MissingKey(REFRESH_TOKEN))
    else Success(StoredRecord(TokenSet(body.accessToken.value, body.refreshToken.value, record.tokens.expiresIn),
                              Stamp(writer, stampTime)))
  }

  /**
   * A stored pair last updated at `lastUpdate` is refreshed at `now` only when
   * its age is strictly greater than expires_in seconds.
   */
  predicate IsStale(lastUpdate: nat, expiresIn: int, now: nat) {
    now - lastUpdate > expiresIn * MICROS_PER_SECOND
  }

  /** The end of a run that made `requests`: a new store is written, an error writes nothing. */
  function Persist(requests: seq<TokenRequest>, r: Result<StoredRecord, TokenError>): (run: TokenRun)
    requires |requests| == 1
    ensures run.requests == requests && run.result == r
    ensures run.written.Some? <==> r.Success?
    ensures run.written.Some? ==> run.written.value == r.value
  {
    match r
    case Success(store) => TokenRun(requests, r, Some(store))
    case Failure(_) => TokenRun(requests, r, None)
  }

  /**
   * One run of the lifecycle.  `now` is the clock read for the age of a
   * stored pair, `stampTime` the one read when a new store is stamped, and
   * `response` what the token endpoint answers to the request the run makes,
   * and `writer` the stamp writer (`IsoFormatWriter` is the code as written).
   * Whatever the branch, at most one request is made, and a store is written
   * exactly when a request was made and the run ended with a store, which is
   * then the store written.
   */
  function TokenLifecycle(cred: Credentials, stored: Option<StoredRecord>, now: nat, stampTime: nat,
                          writer: StampWriter, response: TokenResponse): (run: TokenRun)
    ensures |run.requests| <= 1
    ensures run.written.Some? <==> run.requests != [] && run.result.Success?
    ensures run.written.Some? ==> run.result == Success(run.written.value)
  {
    match stored
    case None =>
      var requests := [PasswordGrantRequest(cred)];
      (match GetToken(response)
       case Failure(e) => TokenRun(requests, Failure(e), None)
       case Success(body) => Persist(requests, NewStore(body, stampTime, writer)))
    case Some(record) =>
      match ParseStamp(record.tokensLastUpdated)
      case None => TokenRun([], Failure(UnreadableTimestamp), None)
      case Some(lastUpdate) =>
        if IsStale(lastUpdate, record.tokens.expiresIn, now) then
          Persist([RefreshGrantRequest(cred, record.tokens.refreshToken)],
                  RefreshedStore(record, response.body, stampTime, writer))
        else
          TokenRun([], Success(record), None)
  }


  /**
   * First run: with no token store, exactly one password grant is sent; a
   * non-OK status ends the run with nothing written; an OK body with all
   * three keys becomes the store, stamped at `stampTime`, and is written.
   */
  lemma FirstRun(cred: Credentials, now: nat, stampTime: nat, writer: StampWriter, response: TokenResponse)
    ensures var run := TokenLifecycle(cred, None, now, stampTime, writer, response);
      && run.requests == [PasswordGrantRequest(cred)]
      && (response.status != HTTP_OK ==>
            run.result == Failure(FetchRejected(response.status)) && run.written == None)
      && (run.result.Success? <==>
            response.status == HTTP_OK && response.body.accessToken.Some?
            && response.body.refreshToken.Some? && response.body.expiresIn.Some?)
      && (run.result.Success? ==>
            && run.result.value.tokens == TokenSet(response.body.accessToken.value,
                                                   response.body.refreshToken.value,
                                                   response.body.expiresIn.value)
            && run.result.value.tokensLastUpdated == Stamp(writer, stampTime)
            && run.written == Some(run.result.value))
  {
  }

  /**
   * Reuse: a stored pair whose age is at most expires_in seconds (an age of
   * exactly expires_in included) is returned unchanged, with no request and
   * no write, whatever the endpoint would have answered.
   */
  lemma Reuse(cred: Credentials, record: StoredRecord, lastUpdate: nat, now: nat, stampTime: nat,
              writer: StampWriter, response: TokenResponse)
    requires ParseStamp(record.tokensLastUpdated) == Some(lastUpdate)
    requires now - lastUpdate <= record.tokens.expiresIn * MICROS_PER_SECOND
    ensures TokenLifecycle(cred, Some(record), now, stampTime, writer, response) == TokenRun([], Success(record), None)
  {
  }

  /**
   * Stale: exactly one refresh grant is sent, with the stored refresh token;
   * the run succeeds exactly when the body has both tokens, whatever the
   * status; the new store has those two tokens, the OLD expires_in and the
   * stamp `stampTime`, and is written; otherwise nothing is written.
   */
  lemma Stale(cred: Credentials, record: StoredRecord, lastUpdate: nat, now: nat, stampTime: nat,
              writer: StampWriter, response: TokenResponse)
    requires ParseStamp(record.tokensLastUpdated) == Some(lastUpdate)
    requires now - lastUpdate > record.tokens.expiresIn * MICROS_PER_SECOND
    ensures var run := TokenLifecycle(cred, Some(record), now, stampTime, writer, response);
      && run.requests == [RefreshGrant(cred.clientId, cred.clientSecret, record.tokens.refreshToken)]
      && (run.result.Success? <==> response.body.accessToken.Some? && response.body.refreshToken.Some?)
      && (run.result.Success? ==>
            && run.result.value.tokens == TokenSet(response.body.accessToken.value,
                                                   response.body.refreshToken.value,
                                                   record.tokens.expiresIn)
            && run.result.value.tokensLastUpdated == Stamp(writer, stampTime)
            && run.written == Some(run.result.value))
      && (run.result.Failure? ==> run.result.error.MissingKey? && run.written == None)
  {
  }

  /** The refresh response's status is never looked at: only its body decides the run. */
  lemma RefreshIgnoresStatus(cred: Credentials, record: StoredRecord, now: nat, stampTime: nat,
                             writer: StampWriter, body: TokenJson, status1: int, status2: int)
    ensures TokenLifecycle(cred, Some(record), now, stampTime, writer, TokenResponse(status1, body))
         == TokenLifecycle(cred, Some(record), now, stampTime, writer, TokenResponse(status2, body))
  {
  }

  /** A stored timestamp that cannot be parsed ends the run before any request, with nothing written. */
  lemma UnreadableStore(cred: Credentials, record: StoredRecord, now: nat, stampTime: nat,
                        writer: StampWriter, response: TokenResponse)
    requires ParseStamp(record.tokensLastUpdated).None?
    ensures TokenLifecycle(cred, Some(record), now, stampTime, writer, response)
         == TokenRun([], Failure(UnreadableTimestamp), None)
  {
  }

  /**
   * Round trip through the store: a store written by one run is reused
   * unchanged by a later run while its age is at most expires_in seconds,
   * provided its stamp can be read back: always with the corrected writer,
   * and with `isoformat()` only off a whole second.
   */
  lemma WrittenStoreIsReused(cred: Credentials, stored: Option<StoredRecord>, now: nat, stampTime: nat,
                             writer: StampWriter, response: TokenResponse,
                             later: nat, laterStamp: nat, laterWriter: StampWriter, laterResponse: TokenResponse)
    requires writer.SixDigitWriter? || stampTime % MICROS_PER_SECOND != 0
    requires TokenLifecycle(cred, stored, now, stampTime, writer, response).written.Some?
    requires later - stampTime
          <= TokenLifecycle(cred, stored, now, stampTime, writer, response).written.value.tokens.expiresIn
             * MICROS_PER_SECOND
    ensures var w := TokenLifecycle(cred, stored, now, stampTime, writer, response).written.value;
      TokenLifecycle(cred, Some(w), later, laterStamp, laterWriter, laterResponse) == TokenRun([], Success(w), None)
  {
    var w := TokenLifecycle(cred, stored, now, stampTime, writer, response).written.value;
    assert w.tokensLastUpdated == Stamp(writer, stampTime);
    StampReadsBack(writer, stampTime);
    Reuse(cred, w, stampTime, later, laterStamp, laterWriter, laterResponse);
  }

  /**
   * The code as written: a store that `isoformat()` stamped on a whole second
   * makes every later run fail before any request, with nothing written.
   */
  lemma WholeSecondStoreUnreadable(cred: Credentials, stored: Option<StoredRecord>, now: nat, stampTime: nat,
                                   response: TokenResponse,
                                   later: nat, laterStamp: nat, laterWriter: StampWriter, laterResponse: TokenResponse)
    requires stampTime % MICROS_PER_SECOND == 0
    requires TokenLifecycle(cred, stored, now, stampTime, IsoFormatWriter, response).written.Some?
    ensures var w := TokenLifecycle(cred, stored, now, stampTime, IsoFormatWriter, response).written.value;
      TokenLifecycle(cred, Some(w), later, laterStamp, laterWriter, laterResponse)
      == TokenRun([], Failure(UnreadableTimestamp), None)
  {
    var w := TokenLifecycle(cred, stored, now, stampTime, IsoFormatWriter, response).written.value;
    assert w.tokensLastUpdated == IsoFormat(stampTime);
    IsoFormatWholeSecondUnreadable(stampTime);
  }

  /**
   * Concretely: a first run at 2020-01-01T00:00:00 whose password grant
   * succeeds writes a store that the next run cannot read.
   */
  lemma FirstRunOnWholeSecond(cred: Credentials, access: string, refresh: string,
                              later: nat, laterStamp: nat, laterResponse: TokenResponse)
    ensures var stampTime := 1_577_836_800 * MICROS_PER_SECOND;
      var first := TokenLifecycle(cred, None, stampTime, stampTime, IsoFormatWriter,
                                  TokenResponse(HTTP_OK, TokenJson(Some(access), Some(refresh), Some(10800))));
      && first.written.Some?
      && TokenLifecycle(cred, first.written, later, laterStamp, IsoFormatWriter, laterResponse)
         == TokenRun([], Failure(UnreadableTimestamp), None)
  {
    var stampTime := 1_577_836_800 * MICROS_PER_SECOND;
    var response := TokenResponse(HTTP_OK, TokenJson(Some(access), Some(refresh), Some(10800)));
    FirstRun(cred, stampTime, stampTime, IsoFormatWriter, response);
    WholeSecondStoreUnreadable(cred, None, stampTime, stampTime, response,
                               later, laterStamp, IsoFormatWriter, laterResponse);
  }

  /**
   * A pair with expires_in = 10800 s, stored at T0: reused after 100 s and
   * after exactly 10800 s, refreshed after 10801 s.
   */
  lemma ExpiryScenario(cred: Credentials, access: string, refresh: string, t0: nat,
                       writer: StampWriter, response: TokenResponse)
    ensures var record := StoredRecord(TokenSet(access, refresh, 10800), FormatStamp(t0));
      && TokenLifecycle(cred, Some(record), t0 + 100 * MICROS_PER_SECOND, 0, writer, response).requests == []
      && TokenLifecycle(cred, Some(record), t0 + 10800 * MICROS_PER_SECOND, 0, writer, response).requests == []
      && TokenLifecycle(cred, Some(record), t0 + 10801 * MICROS_PER_SECOND, 0, writer, response).requests
         == [RefreshGrantRequest(cred, refresh)]
  {
    FormatStampRoundTrip(t0);
  }
}
