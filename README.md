# Watchlist state engine

A Dafny model of the state engine inside `WatchlistProvider` in
`src/WatchlistContext.js`. The provider holds a live market watchlist fed by
a TrueData streaming socket. It keeps four pieces of state:

- `marketData`: symbol name to quote row;
- `idToNameMap`: feed id to symbol name;
- the connection `status`;
- the `credentials`.

The model drives that state with the socket callbacks (open, close, error,
message) and the user actions (login/logout, add symbol, remove symbol).

Modules:

- `JsValues` (`js_values.dfy`): the JavaScript conventions the code relies on.
  These are `undefined` past the end of an array, truthiness of strings,
  property-key coercion (`obj[undefined]` is `obj["undefined"]`),
  `String.prototype.includes` and (ASCII) `toUpperCase`.
- `Price` (`price.dfy`): `parseFloat` as an exact decimal-prefix reader
  returning `Option<real>`. `None` is NaN, and every comparison with it is false.
- `Quotes` (`quotes.dfy`): the rows and the pure transforms the state updaters
  apply. These are one `symbollist` batch, a `trade` delta with id resolution
  and the up/down colour, and the removal filter. The file also holds the
  lemmas about each transform.
- `WatchlistContext` (`watchlist_context.dfy`): the class `WatchlistProvider`.
  Its fields are `marketData`, `idToName`, `status`, `credentials`, `socket`
  (the `readyState` of `ws.current`) and `outbox`, which stands in for
  `ws.send`. Each callback and action is a method that states the whole new
  state. `Valid()` is the invariant every method keeps:
  - rows are keyed by their own name;
  - "Connecting..." means a socket is opening;
  - "Connected (Ready)" means the socket is open;
  - a live socket implies credentials.
- `Scenarios` (`scenarios.dfy`): concrete frames and action sequences.

Behaviour of the code worth knowing:

- A `trade` is rejected only when it is not an array or has fewer than 5
  elements (`src/WatchlistContext.js:72`); no other field count is checked.
- An empty array item in a snapshot batch stops the batch. Such an
  item has `item[0] === undefined`, so `symName.includes` throws at
  `src/WatchlistContext.js:58`. That ends the `forEach` and leaves the rest of
  the batch unapplied. The items before it stay applied (`Quotes.Reached`).
- A close event only sets "Disconnected". It does not clear `marketData`. Only
  the logout path clears it.
- Logging in with new credentials while logged in does not empty the table.
  Only logout clears it, at lines 26 and 110. Logout followed by login does
  give an empty table (`Scenarios.LogoutThenLogin`).
- Logout while already logged out clears the table but leaves the status as
  it was. `setCredentials(null)` on `null` does not re-run the effect.
- Nothing forces a row's name to be non-empty. A snapshot `["", ...]` stores a
  row under `""`, and so does a trade whose id `""` is unregistered (or
  registered to `""`). Rows are always keyed by their
  own name, though (`Quotes.KeyedByName`, part of `Valid()`).
- `idToNameMap` is never cleared, not even on logout.

## Model

| member | source | states |
|---|---|---|
| `JsValues.ContainsIff` | src/WatchlistContext.js:58 | `includes` as defined holds exactly when the marker occurs at some position |
| `JsValues.ToUpper` | src/WatchlistContext.js:116 | the upper-cased symbol has the same length, no lower-case ASCII letter, other characters unchanged, letters shifted to upper case |
| `JsValues.ToUpperIdempotent` | src/WatchlistContext.js:116 | upper-casing twice equals upper-casing once |
| `Price.ParseDecimalText` | src/WatchlistContext.js:79-80 | reading `i.f` followed by a non-digit gives exactly `i + f/10^len(f)` |
| `Price.ParseNatText` | src/WatchlistContext.js:79-80 | round trip: reading the decimal text of a whole number gives that number |
| `Price.NoDigitIsNaN` | src/WatchlistContext.js:79-83 | in the `parseFloat` model, text with no digit reads as NaN (so no price comparison with it holds) |
| `Quotes.Reached` | src/WatchlistContext.js:55-58 | the snapshot loop gets exactly to the first empty-array item, which throws |
| `Quotes.SnapshotsData` | src/WatchlistContext.js:55-69 | key by key, after a batch each name holds the row of its last accepted item, or its old row if no accepted item has that name |
| `Quotes.SnapshotsIds` | src/WatchlistContext.js:57-59 | key by key, each id maps to the name of its last accepted item, or keeps its old name |
| `Quotes.LastSnapshotIsLatest` | src/WatchlistContext.js:61-68 | the last accepted item with a name is the one whose row stays (later items overwrite earlier ones) |
| `Quotes.LastSnapshotNone` | src/WatchlistContext.js:56-58 | with no accepted item for a name the batch gives no row for it |
| `Quotes.LastRegistrationIsLatest` | src/WatchlistContext.js:59 | the last accepted item with an id sets its registry entry |
| `Quotes.LastRegistrationNone` | src/WatchlistContext.js:59 | with no accepted item for an id the batch registers nothing for it |
| `Quotes.SnapshotListStores` | src/WatchlistContext.js:54-69 | an accepted item not overwritten later is stored under its name with fields from positions 0 to 10 and colour "transparent" |
| `Quotes.SnapshotListRegisters` | src/WatchlistContext.js:57-59 | an accepted item not re-registered later leaves `idToNameMap[item[1]] == item[0]` |
| `Quotes.SnapshotListKeeps` | src/WatchlistContext.js:56-58 | non-array and "Invalid" items touch no row: names without an accepted item keep their old row or absence |
| `Quotes.SnapshotListKeepsIds` | src/WatchlistContext.js:56-59 | ids without an accepted item keep their old registry entry or absence |
| `Quotes.InvalidNeverInserted` | src/WatchlistContext.js:58 | a name containing "Invalid" never gets a row from a batch |
| `Quotes.SnapshotListIdempotent` | src/WatchlistContext.js:54-69 | applying the same `symbollist` twice equals applying it once |
| `Quotes.SnapshotsKeepKeyedByName` | src/WatchlistContext.js:61-68 | after a batch every row is still keyed by its own name |
| `Quotes.ApplyTrade` | src/WatchlistContext.js:71-95 | a trade never writes the registry; a non-array trade or one with fewer than 5 elements changes nothing; otherwise the keys gain only the resolved name and every other row is unchanged |
| `Quotes.TradeStores` | src/WatchlistContext.js:73-92 | the trade is stored under the registered name when it is non-empty, else under the raw id; the row carries that name, the raw id, and time to close from positions 1 to 9 |
| `Quotes.TradeColorRule` | src/WatchlistContext.js:78-83 | up iff the price rose (or it stayed put or was NaN and the row was up), down likewise, otherwise the previous colour; the first sight of a row is "transparent" |
| `Quotes.TradeKeepsKeyedByName` | src/WatchlistContext.js:85-93 | after a trade every row is still keyed by its own name |
| `Quotes.KeepUnmatched` | src/WatchlistContext.js:129-137 | the key-by-key rebuild yields exactly the unmatched rows |
| `Quotes.RemainingExactly` | src/WatchlistContext.js:131-135 | a key survives removal iff its row does not match; survivors keep their row |
| `Quotes.RemoveUnknown` | src/WatchlistContext.js:129-137 | removing a name and id no row carries changes nothing |
| `Quotes.RemoveByEither` | src/WatchlistContext.js:133 | a name alone removes the rows with that name, an id alone the rows with that id; falsy criteria remove nothing |
| `Quotes.RemainingKeyedByName` | src/WatchlistContext.js:129-137 | after removal every row is still keyed by its own name |
| `Quotes.ReachedIsFirstThrow` | src/WatchlistContext.js:55-58 | the loop stops at the first item that throws |
| `WatchlistContext.WatchlistProvider.constructor` | src/WatchlistContext.js:8-32 | mounting with saved credentials starts "Connecting..." with an opening socket; without them "Disconnected" and no socket; tables and outbox empty |
| `WatchlistContext.WatchlistProvider.CredentialsEffect` | src/WatchlistContext.js:21-36 | cleanup closes the old socket; without credentials "Disconnected" and an empty table; with credentials "Connecting..." and a new opening socket; the registry and outbox are kept |
| `WatchlistContext.WatchlistProvider.Login` | src/WatchlistContext.js:102-112 | truthy user and pass set the credentials and reconnect; otherwise credentials cleared and the table emptied, and the status is "Disconnected" when there were credentials |
| `WatchlistContext.WatchlistProvider.OnOpen` | src/WatchlistContext.js:38-43 | "Connected (Ready)", socket open, exactly one `addsymbol` of the default watch-set sent, data unchanged |
| `WatchlistContext.WatchlistProvider.OnClose` | src/WatchlistContext.js:45 | "Disconnected", socket closed, data untouched |
| `WatchlistContext.WatchlistProvider.OnError` | src/WatchlistContext.js:46 | "Connection Error", nothing else changes |
| `WatchlistContext.WatchlistProvider.OnMessage` | src/WatchlistContext.js:48-96 | dispatch in priority order: handshake (Ready on success, no data change), `symbollist` batch, `trade` delta, else nothing; socket, credentials and outbox unchanged |
| `WatchlistContext.WatchlistProvider.OnSymbolList` | src/WatchlistContext.js:54-70 | the loop leaves the tables equal to the batch transform |
| `WatchlistContext.WatchlistProvider.OnTrade` | src/WatchlistContext.js:71-95 | the handler leaves the tables equal to the trade transform |
| `WatchlistContext.WatchlistProvider.AddSymbol` | src/WatchlistContext.js:114-118 | `addsymbol` with the upper-cased symbol is sent only on an open socket; otherwise the outbox is unchanged |
| `WatchlistContext.WatchlistProvider.RemoveSymbol` | src/WatchlistContext.js:120-138 | `removesymbol` with [name if truthy, id if truthy] is sent only on an open socket; the matching rows are removed locally in every socket state |
| `Scenarios.SnapshotThenHigherTrade` | src/WatchlistContext.js:54-95 | snapshot INFY/101 at 1500.00, then trade 101 at 1510.50: row "INFY" has ltp "1510.50" and turns green |
| `Scenarios.TradeForUnknownId` | src/WatchlistContext.js:74-83 | a trade for an unregistered id is stored under the raw id with colour "transparent" |
| `Scenarios.Connect` | src/WatchlistContext.js:38-43 | mounting logged out, logging in and the socket opening: Ready, an empty table, and the default `addsymbol` as the only frame sent |
| `Scenarios.SnapshotThenRemove` | src/WatchlistContext.js:120-138 | after the INFY snapshot, removing by name and id drops the row and sends one `removesymbol` of ["INFY", "101"] |
| `Scenarios.LogoutThenLogin` | src/WatchlistContext.js:102-112 | logout then login leaves no row of the previous session, with the new connection opening |

## Left out

- WebSocket construction, the URL with the credentials, and the real `close()` (src/WatchlistContext.js:34-36, 98): transport I/O, modelled as the `socket` state and the `outbox`.
- A replaced socket's late `onclose`/`onerror` (its handlers still call `setStatus`): only events of the current socket are modelled; `OnOpen` and `OnMessage` require the socket state the transport delivers them in (opening, open).
- localStorage reads and writes of the credentials (src/WatchlistContext.js:12-15, 105, 108): persistence I/O; the saved credentials are a constructor parameter.
- Exceptions from malformed frames: `JSON.parse` failing, a truthy non-array `symbollist`, a non-string name. Messages are decoded values, and feed values are strings (a JSON number is its text). The one throw that arises from these types, an empty array item, is modelled.
- JavaScript object prototype keys (`constructor`, `__proto__` ...) looked up in `idToNameMap` or `marketData`: the tables are plain maps.
- React plumbing and asynchrony: each event is applied atomically and in order; queued updaters are applied in the order they were queued.
- The change and percentage display in src/TradeDisplay.js, and src/TradeSearch.js and src/TradeDashboard.js: rendering and form wiring with no state logic.
- Price.ParseFloat, Price.ParseDecimalText, Price.NoDigitIsNaN: `parseFloat` is modelled on exact reals without exponents, `Infinity` or binary rounding, and skips only common white space; in particular `parseFloat("Infinity")` is Infinity, while the model reads it as NaN.
- JsValues.ToUpper: upper-cases ASCII letters only; `toUpperCase` also maps other scripts and may change the length.
- The key order of `marketData`: it is a JavaScript object whose insertion order sets the display order in src/TradeDisplay.js:19, and the removal rebuild at src/WatchlistContext.js:131-135 keeps that order; the tables are Dafny maps, which have no order. No state rule depends on it.
