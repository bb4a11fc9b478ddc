/** The watchlist provider: the connection status, the credentials, the socket
    and the two tables, driven by the transport callbacks (open, close, error,
    message) and the user actions (login/logout, add symbol, remove symbol).
    Each event is applied atomically, in arrival order. Outbound frames are
    appended to `outbox` instead of being written to a socket. */
module WatchlistContext {
  import opened JsValues
  import opened Quotes

  /** The status text shown to the user. */
  datatype Status = Disconnected | Connecting | Ready | ConnectionError
  {
    function Label(): string
    {
      match this
      case Disconnected => "Disconnected"
      case Connecting => "Connecting..."
      case Ready => "Connected (Ready)"
      case ConnectionError => "Connection Error"
    }
  }

  datatype Creds = Creds(user: string, pass: string)

  /** `ws.current`: none yet, or a socket whose `readyState` is CONNECTING, OPEN
      or CLOSING/CLOSED. */
  datatype Socket = NoSocket | Opening | Open | Closed

  /** An outbound frame `{method: action, symbols}`. */
  datatype Command = Command(action: string, symbols: seq<string>)

  /** A decoded inbound frame. `symbollist` and `trade` are `None` when the
      field is absent or falsy; `success` is the truthiness of that field. */
  datatype Message = Message(message: Option<string>, success: bool,
                             symbollist: Option<seq<Item>>, trade: Option<Item>)

  const ServiceName := "TrueData Real Time Data Service"
  const DefaultSymbols := ["NIFTY 50", "GOLD-I", "SENSEX1_BSE"]
  const AddMethod := "addsymbol"
  const RemoveMethod := "removesymbol"

  predicate IsHandshake(msg: Message)
  {
    msg.message == Some(ServiceName)
  }

  /** The socket after `ws.current.close()` (when there is a socket). */
  function AfterClose(s: Socket): Socket
  {
    if s == NoSocket then NoSocket else Closed
  }

  /** `[symName if truthy, then symID if truthy]`. */
  function RemovalSymbols(symName: Field, symID: Field): seq<string>
  {
    (if Truthy(symName) then [symName.value] else []) + (if Truthy(symID) then [symID.value] else [])
  }

  class WatchlistProvider {
    var marketData: map<string, Quote>
    var idToName: map<string, string>
    var status: Status
    var credentials: Option<Creds>
    var socket: Socket
    var outbox: seq<Command>

    /** Every row is keyed by its name; "Connecting..." means a socket is
        opening and "Connected (Ready)" an open one; a live socket implies
        credentials, and credentials imply a socket has been created. */
    ghost predicate Valid()
      reads this
    {
      && KeyedByName(marketData)
      && (status == Connecting ==> socket == Opening)
      && (status == Ready ==> socket == Open)
      && (socket == Opening || socket == Open ==> credentials.Some?)
      && (credentials.Some? ==> socket != NoSocket)
    }

    function TablesOf(): Tables
      reads this
    {
      Tables(marketData, idToName)
    }

    /** Mounting the provider with the credentials persisted earlier (if any);
        the connection effect runs once. */
    constructor (saved: Option<Creds>)
      ensures Valid()
      ensures credentials == saved && marketData == map[] && idToName == map[] && outbox == []
      ensures saved.None? ==> status == Disconnected && socket == NoSocket
      ensures saved.Some? ==> status == Connecting && socket == Opening
    {
      marketData := map[];
      idToName := map[];
      status := Disconnected;
      credentials := saved;
      socket := NoSocket;
      outbox := [];
      new;
      CredentialsEffect();
    }

    /** The effect keyed on `credentials`: the previous run's cleanup closes the
        current socket; then, without credentials, the status is "Disconnected"
        and the table is emptied, and with credentials a new socket starts
        connecting. */
    method CredentialsEffect()
      requires KeyedByName(marketData)
      modifies this
      ensures Valid()
      ensures credentials == old(credentials) && idToName == old(idToName) && outbox == old(outbox)
      ensures credentials.None? ==>
        status == Disconnected && marketData == map[] && socket == AfterClose(old(socket))
      ensures credentials.Some? ==>
        status == Connecting && marketData == old(marketData) && socket == Opening
    {
      socket := AfterClose(socket);
      if credentials.None? {
        status := Disconnected;
        marketData := map[];
        return;
      }
      status := Connecting;
      socket := Opening;
    }

    /** `handleLogin(user, pass)`. With both truthy, new credentials (a new
        object, so the effect always re-runs). Otherwise the credentials are
        cleared together with the table; the effect re-runs only if there were
        credentials before. */
    method Login(user: Field, pass: Field)
      requires Valid()
      modifies this
      ensures Valid()
      ensures idToName == old(idToName) && outbox == old(outbox)
      ensures Truthy(user) && Truthy(pass) ==>
        && credentials == Some(Creds(user.value, pass.value))
        && status == Connecting && socket == Opening && marketData == old(marketData)
      ensures !(Truthy(user) && Truthy(pass)) ==> credentials == None && marketData == map[]
      ensures !(Truthy(user) && Truthy(pass)) && old(credentials).Some? ==>
        status == Disconnected && socket == Closed
      ensures !(Truthy(user) && Truthy(pass)) && old(credentials).None? ==>
        status == old(status) && socket == old(socket)
    {
      if Truthy(user) && Truthy(pass) {
        credentials := Some(Creds(user.value, pass.value));
        CredentialsEffect();
      } else {
        var changed := credentials.Some?;
        credentials := None;
        marketData := map[];
        if changed {
          CredentialsEffect();
        }
      }
    }

    /** `onopen`: ready, and the default watch-set is subscribed. */
    method OnOpen()
      requires Valid() && socket == Opening
      modifies this
      ensures Valid()
      ensures status == Ready && socket == Open
      ensures outbox == old(outbox) + [Command(AddMethod, DefaultSymbols)]
      ensures marketData == old(marketData) && idToName == old(idToName)
      ensures credentials == old(credentials)
    {
      status := Ready;
      socket := Open;
      // The handler re-checks `readyState === OPEN` before sending; the
      // transport delivers `onopen` only once the socket is open, so it holds.
      if socket == Open {
        outbox := outbox + [Command(AddMethod, DefaultSymbols)];
      }
    }

    /** `onclose`: "Disconnected"; the data is kept. */
    method OnClose()
      requires Valid()
      modifies this`status, this`socket
      ensures Valid()
      ensures status == Disconnected && socket == AfterClose(old(socket))
    {
      status := Disconnected;
      socket := AfterClose(socket);
    }

    /** `onerror`: "Connection Error"; nothing else changes. */
    method OnError()
      requires Valid()
      modifies this`status
      ensures Valid()
      ensures status == ConnectionError
    {
      status := ConnectionError;
    }

    /** `onmessage`, in priority order: the service handshake (ready on success,
        no data change), a `symbollist` batch, a `trade` delta; anything else
        is dropped. */
    method OnMessage(msg: Message)
      requires Valid() && socket == Open
      modifies this`marketData, this`idToName, this`status
      ensures Valid()
      ensures IsHandshake(msg) ==>
        TablesOf() == old(TablesOf()) && status == (if msg.success then Ready else old(status))
      ensures !IsHandshake(msg) ==> status == old(status)
      ensures !IsHandshake(msg) && msg.symbollist.Some? ==>
        TablesOf() == ApplySnapshotList(old(TablesOf()), msg.symbollist.value)
      ensures !IsHandshake(msg) && msg.symbollist.None? && msg.trade.Some? ==>
        TablesOf() == ApplyTrade(old(TablesOf()), msg.trade.value)
      ensures !IsHandshake(msg) && msg.symbollist.None? && msg.trade.None? ==>
        TablesOf() == old(TablesOf())
    {
      if IsHandshake(msg) {
        if msg.success {
          status := Ready;
        }
      } else if msg.symbollist.Some? {
        OnSymbolList(msg.symbollist.value);
      } else if msg.trade.Some? {
        OnTrade(msg.trade.value);
      }
    }

    /** The `symbollist` loop: each accepted item registers its id and upserts
        its row; an empty array throws and ends the loop. */
    method OnSymbolList(items: seq<Item>)
      requires KeyedByName(marketData)
      modifies this`marketData, this`idToName
      ensures KeyedByName(marketData)
      ensures TablesOf() == ApplySnapshotList(old(TablesOf()), items)
    {
      ghost var start := TablesOf();
      var i := 0;
      while i < |items|
        invariant i <= Reached(items)
        invariant NoThrow(items[..i])
        invariant TablesOf() == ApplySnapshots(start, items[..i])
        invariant KeyedByName(marketData)
      {
        var item := items[i];
        if item.Arr? && |item.elems| == 0 {
          ReachedIsFirstThrow(items, i);
          break;
        }
        assert items[..i + 1] == items[..i] + [item];
        assert items[..i + 1][..i] == items[..i];
        if item.Arr? {
          var symName := item.elems[0];
          var symID := At(item.elems, 1);
          if !Contains(symName, InvalidMarker) {
            idToName := idToName[KeyOf(symID) := symName];
            marketData := marketData[symName := SnapshotRecord(item.elems)];
          }
        }
        i := i + 1;
        assert items[..Reached(items)][i - 1] == items[i - 1];
      }
    }

    /** The `trade` handler: dropped unless an array of at least 5 elements;
        otherwise its id is resolved once and the updater rewrites that row. */
    method OnTrade(trade: Item)
      requires KeyedByName(marketData)
      modifies this`marketData
      ensures KeyedByName(marketData)
      ensures TablesOf() == ApplyTrade(old(TablesOf()), trade)
    {
      if !trade.Arr? || |trade.elems| < 5 {
        return;
      }
      var rawKey := trade.elems[0];
      var realName := ResolveName(idToName, rawKey);
      marketData := TradeUpdate(marketData, realName, trade.elems);
    }

    /** `handleAddSymbol`: subscribe the upper-cased symbol, only on an open socket. */
    method AddSymbol(symbol: string)
      requires Valid()
      modifies this`outbox
      ensures Valid()
      ensures outbox == if socket == Open then old(outbox) + [Command(AddMethod, [ToUpper(symbol)])]
                        else old(outbox)
    {
      if socket == Open {
        outbox := outbox + [Command(AddMethod, [ToUpper(symbol)])];
      }
    }

    /** `handleRemoveSymbol`: unsubscribe on an open socket, and drop the
        matching rows locally whatever the socket state. */
    method RemoveSymbol(symName: Field, symID: Field)
      requires Valid()
      modifies this`outbox, this`marketData
      ensures Valid()
      ensures outbox == if socket == Open then old(outbox) + [Command(RemoveMethod, RemovalSymbols(symName, symID))]
                        else old(outbox)
      ensures marketData == Remaining(old(marketData), symName, symID)
    {
      if socket == Open {
        var symbolsToRemove: seq<string> := [];
        if Truthy(symName) {
          symbolsToRemove := symbolsToRemove + [symName.value];
        }
        if Truthy(symID) {
          symbolsToRemove := symbolsToRemove + [symID.value];
        }
        assert symbolsToRemove == RemovalSymbols(symName, symID);
        outbox := outbox + [Command(RemoveMethod, symbolsToRemove)];
      }
      RemainingKeyedByName(marketData, symName, symID);
      marketData := KeepUnmatched(marketData, symName, symID);
    }
  }
}
