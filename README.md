# pynetatmo model

This is a Dafny model of the Netatmo weather-station client in `pynetatmo.py`. It covers four things:

- The OAuth2 token lifecycle. With no token store, the client fetches a pair by password grant. When the stored pair is older than `expires_in`, it refreshes it. Otherwise it reuses the stored pair. In every case it copies the pair into the configuration, and it writes the store back only when the pair changed.
- The cache of the `getstationsdata` response.
- The indexes built from that response: the station list, the module index with each module's capability flags, and the station-to-submodule hierarchy.
- The CO2 default the index fills in.

Files:

- `wrappers.dfy`: `Option` and `Result`.
- `timestamps.dfy` (module `Timestamps`): the `tokens_last_updated` timestamp. Times are integer microseconds since the epoch. A timestamp's text is abstracted to its whole seconds and the digits of its fractional part. This module holds the parser (`strptime` with `"%Y-%m-%dT%H:%M:%S.%f"`), the writer as written (`isoformat()`) and the corrected writer.
- `tokens.dfy` (module `Tokens`): the token records, the endpoint's requests and responses, and `TokenLifecycle`. This function is the reference definition of one run of `_get_or_refresh_tokens`. The lemmas beside it state each branch's property.
- `stations.dfy` (module `Stations`): the station data and the `WeatherstationModule` record.
  - `Assign` models Python dictionary assignment: pairs are written in order, and a later key replaces an earlier one.
  - The spec functions of the three indexes and the CO2 pass are defined on top of `Assign`, with their lemmas.
- `netatmo.dfy` (module `Netatmo`): the `Weatherstation` class.
  - Fields: the configuration's token entries, the response cache, `modules` and `hierarchy`.
  - Each method is imperative, as in the source, and is proved against the spec functions above.

The network and the disk are inputs and outputs:

- A method is given the response the endpoint returns.
- It reports the request it sent.
- The token store is given as the record read from it (or `None` when the file does not exist).
- The write is returned as the record written to `tokenstore`.

The source reads the clock twice, so two clock readings are parameters:

- `now`, read for the stored pair's age (line 116).
- `stampTime`, read when a new store is stamped (lines 126 and 132).

The stamp writer is a parameter too. `IsoFormatWriter` is the code as written (`isoformat()`). `SixDigitWriter` is the correction described under "## Findings".

`WeatherstationModule.__init__` takes `parent_id` and `is_child` but stores neither. So the record has no parent link. A submodule's station can only be found through `hierarchy`.

The model follows the code where it departs from a clean token-manager design:

- A pair whose age equals `expires_in` exactly is reused. The test is strict `>`.
- A refresh keeps the old `expires_in`.
- The refresh response's status is never checked. A refresh body without tokens fails with a missing key.
- The code has no serialisation of concurrent refreshes.

## Model

| member | source | states |
|---|---|---|
| `Tokens.TokenLifecycle` | pynetatmo.py:98-145 | For either stamp writer: at most one request per run. The store is written if and only if a request was made and the run ended with a store. What is written is exactly the final store. |
| `Tokens.FirstRun` | pynetatmo.py:129-136 | No store, so exactly one password grant, with the configured credentials and scope. A non-OK status ends the run with no store and no write. The run succeeds exactly when the status is OK and the body has all three keys. The store then holds the body's access token, refresh token and `expires_in`, stamped at `stampTime` by the run's writer, and is written. |
| `Tokens.Reuse` | pynetatmo.py:116-119 | A stored pair whose age is at most `expires_in` seconds (equality included) is returned unchanged. No request is made and nothing is written, whatever the response. |
| `Tokens.Stale` | pynetatmo.py:119-127 | Age greater than `expires_in`, so exactly one refresh grant, carrying the stored refresh token. Success exactly when the body has both tokens. Only those two tokens are replaced: the old `expires_in` stays, the stamp becomes `stampTime` by the run's writer, and the store is written. A failure writes nothing. |
| `Tokens.RefreshIgnoresStatus` | pynetatmo.py:93-96 | Two refresh responses with the same body and different statuses give the same run. |
| `Tokens.UnreadableStore` | pynetatmo.py:113-115 | A stored timestamp that cannot be parsed ends the run with an error. No request is made and nothing is written. |
| `Tokens.WrittenStoreIsReused` | pynetatmo.py:113-145 | A store written by one run, read back by a later run within `expires_in` seconds of its stamp, is reused unchanged, with no request and no write. This holds for the corrected writer at every time, and for `isoformat()` when the stamp is not on a whole second. |
| `Tokens.WholeSecondStoreUnreadable` | pynetatmo.py:113-132 | The code as written: a store that a run stamped with `isoformat()` on a whole second makes every later run fail before any request, with nothing written. |
| `Tokens.FirstRunOnWholeSecond` | pynetatmo.py:129-136 | A successful first run at 2020-01-01T00:00:00 writes a store that the next run cannot read. |
| `Tokens.ExpiryScenario` | pynetatmo.py:119 | With `expires_in` = 10800: no request after 100 s or after exactly 10800 s, and one refresh grant after 10801 s. |
| `Timestamps.ParseStamp` | pynetatmo.py:113-115 | A timestamp is read if and only if it has a fractional part of one to six digits. The result's whole seconds are the text's. Its microseconds are the fraction padded on the right to six digits. |
| `Timestamps.FractionMicrosScales` | pynetatmo.py:113-115 | A fraction of n digits stands for its value times 10^(6-n) microseconds. |
| `Timestamps.ShortFractionPadded` | pynetatmo.py:113-115 | The one-digit fraction `.5` reads as 500000 microseconds. |
| `Timestamps.SevenDigitsRefused` | pynetatmo.py:113-115 | A seven-digit fraction is refused, even one ending in zero. |
| `Timestamps.IsoFormat` | pynetatmo.py:126 | The written text has the time's whole seconds. It has a fractional part if and only if the microsecond is not zero. That part is six digits spelling the microsecond. |
| `Timestamps.IsoFormatWholeSecondUnreadable` | pynetatmo.py:126 | Every time on a whole second, once written by `isoformat()`, cannot be read back. |
| `Timestamps.IsoFormatCounterexample` | pynetatmo.py:132 | A store stamped at 2020-01-01T00:00:00 cannot be read back. |
| `Timestamps.IsoFormatRoundTripOffSecond` | pynetatmo.py:113-116 | Every other time written by `isoformat()` reads back as itself. |
| `Timestamps.FormatStampRoundTrip` | pynetatmo.py:132 | The corrected writer (always six fractional digits) reads back as the same time, for every time. |
| `Timestamps.StampReadsBack` | pynetatmo.py:113-132 | A stamp reads back as its own time unless `isoformat()` wrote it on a whole second. In that case it cannot be read at all. |
| `Netatmo.Weatherstation.constructor` | pynetatmo.py:54-64 | Credentials come from the configuration. The token store path is the configured one, or `tokenstore.yaml` by default. There is no cached response and the hierarchy is empty. |
| `Netatmo.Weatherstation.RequestToken` | pynetatmo.py:66-83 | Sends the password-grant form built from the configuration with scope `read_station`. A non-OK status is the exit, carrying that status. An OK status gives back the body. |
| `Netatmo.Weatherstation.RequestRefresh` | pynetatmo.py:85-96 | Sends the refresh-grant form with the refresh token currently in the configuration. It returns the body whatever the status. |
| `Netatmo.Weatherstation.GetOrRefreshTokens` | pynetatmo.py:98-145 | Its requests, result and write are exactly `TokenLifecycle`'s, for the writer it is given. A written store goes to the token store path. On success, the configuration's token entries equal the final store's. On an error, they are the stored record's when one was read. |
| `Netatmo.Weatherstation.GetStationData` | pynetatmo.py:147-160 | The first call sends the access token, caches the response and returns it. Later calls return the cached response and send nothing. |
| `Netatmo.StationDataIsCached` | pynetatmo.py:152-160 | Two calls in a row return the first response both times. Only the first call sends a request. |
| `Netatmo.Weatherstation.ListStations` | pynetatmo.py:167-175 | The result is the station list of the (cached) response. Its keys are exactly the device ids. |
| `Netatmo.Weatherstation.ListModules` | pynetatmo.py:177-232 | `modules` is rebuilt: the module index of the (cached) response, after the CO2 pass. `hierarchy` is the old hierarchy with each station's submodule ids written in. |
| `Netatmo.Weatherstation.AddStation` | pynetatmo.py:182-222 | Writes the station's record, then each submodule's record in order. Returns the submodule ids in input order. |
| `Netatmo.Weatherstation.FillCo2` | pynetatmo.py:224-232 | Every module of the index gets the CO2 pass, and no key is added or removed. |
| `Stations.HasDataType` | pynetatmo.py:162-165 | True if and only if `wanted` occurs at some position of the list. |
| `Stations.StationListKeys` | pynetatmo.py:167-175 | A key is in the station list if and only if some device has that id. |
| `Stations.StationListName` | pynetatmo.py:170-173 | A device whose id no later device shares maps to its module name. |
| `Stations.ModuleIndexEntries` | pynetatmo.py:181-220 | The index has an entry exactly for every station id and every submodule id. Each entry is the record of a station or submodule with that id, so its flags are membership in that module's `data_type`. |
| `Stations.ModuleIndexUnique` | pynetatmo.py:185-220 | With unique ids, each station and each submodule is indexed under its id by its own record. |
| `Stations.HierarchyEntriesSpec` | pynetatmo.py:181-222 | The hierarchy's keys are the old keys plus the station ids. A station whose id no later station shares maps to its submodule ids in input order. Other old entries are unchanged. |
| `Stations.Co2Default` | pynetatmo.py:224-232 | After the CO2 pass every module keeps its record, apart from the CO2 reading. A module with CO2 carries its dashboard's reading, or -1 when there is none. A module without CO2 carries no reading. |

## Findings

| source | as written | input that shows it | evidently intended | confidence | as-written member | corrected member |
|---|---|---|---|---|---|---|
| pynetatmo.py:126 | New stamps are written with `utcnow().isoformat()`, which leaves out the fractional part when the microsecond is 0. Lines 113-115 read them back with `"%Y-%m-%dT%H:%M:%S.%f"`, which requires it, so the next run raises ValueError. The fetch branch (line 132) does the same. | A store stamped at 2020-01-01T00:00:00.000000 (any whole second) | Always write six fractional digits, so every stamp reads back | not executed; high | `Tokens.FirstRunOnWholeSecond` | `Timestamps.FormatStampRoundTrip` |

`TokenLifecycle` and `GetOrRefreshTokens` take the stamp writer as a parameter. With `IsoFormatWriter` they stamp as the code does. `Timestamps.IsoFormatCounterexample` and `Tokens.WholeSecondStoreUnreadable` show what that stamp does to the next run. With `SixDigitWriter`, `Tokens.WrittenStoreIsReused` holds at every time.

## Left out

- HTTP calls to the token and getstationsdata endpoints (lines 75-77, 93-95, 153-155): network I/O. Each method takes the response as an input and returns the request it sent.
- Reading and writing the YAML token store, and the existence test (lines 104-107, 144-145): disk I/O. The store is an `Option<StoredRecord>` input and the write is an output.
- A malformed token store or response that lacks a key the code reads, other than the token-endpoint body's keys: the records are typed, so the KeyError is not modelled.
- The timestamp text: reduced to its whole seconds and the digits of its fraction. Dates and times of day are not spelled out, and text that is not digits is not modelled.
- `total_seconds()` and the float comparison at line 119: the model compares the exact microsecond age with `expires_in` times 10^6. The two agree for every `expires_in` below 2^33 seconds.
- `Weatherstation.__init__` reads the configuration file and then runs the token lifecycle (lines 60-63). The constructor takes the parsed credentials and does not run the lifecycle, because a constructor cannot report the run's error. `GetOrRefreshTokens` is called next, and the station-data methods require the token entries it sets.
- `self.modules` exists only once `list_modules` has run; here the constructor starts it as an empty map.
- The configuration's other entries: only the credentials, the token store path and the token entries are modelled.
- The response cache uses `''` as its "empty" value: a response body that is itself the empty string would not be cached. The model uses `None`.
- Logging setup and `logger` calls (lines 11, 56-59): no behaviour.
- The `co2_pretty` string (line 232), and the humidity, pressure and temperature conversions and formatting (lines 234-266): float arithmetic and string formatting. The humidity branch also uses an undefined name when the reading is missing.
- Dashboard readings other than CO2: the dashboard is a map to integers, and only CO2 is read.
- The module-level script at lines 270-273.
- The unused `stationid` parameter and `modulelist` variable of `list_modules`.
- The one-element tuples built as ids at lines 184 and 203: ids are opaque keys.
- Concurrency: the code has no locking, and concurrent runs are not modelled.
