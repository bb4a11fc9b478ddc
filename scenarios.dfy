/** Worked examples: concrete feed frames and user actions, and what the
    model says the watchlist looks like afterwards. */
module Scenarios {
  import opened JsValues
  import opened Price
  import opened Quotes
  import opened WatchlistContext

  const Infy := Arr(["INFY", "101", "12:00:00", "1500.00", "10", "1499.50", "1000",
                     "1490.00", "1505.00", "1488.00", "1495.00"])
  const InfyTrade := Arr(["101", "12:00:01", "1510.50", "5", "1500.20", "1005",
                          "1490.00", "1511.00", "1488.00", "1495.00"])

  lemma InfyIsAccepted()
    ensures Accepted(Infy)
  {
    assert |Infy.elems[0]| < |InvalidMarker|;
    ContainsIff(Infy.elems[0], InvalidMarker);
  }

  lemma Digits1500()
    ensures AllDigits("1500") && DigitsValue("1500") == 1500
  {
    assert "1500"[..3] == "150" && "150"[..2] == "15" && "15"[..1] == "1" && "1"[..0] == "";
  }

  lemma Digits1510()
    ensures AllDigits("1510") && DigitsValue("1510") == 1510
  {
    assert "1510"[..3] == "151" && "151"[..2] == "15" && "15"[..1] == "1" && "1"[..0] == "";
  }

  lemma Digits00And50()
    ensures AllDigits("00") && DigitsValue("00") == 0
    ensures AllDigits("50") && DigitsValue("50") == 50
  {
    assert "00"[..1] == "0" && "0"[..0] == "";
    assert "50"[..1] == "5" && "5"[..0] == "";
  }

  lemma DecimalPrice(i: string, f: string, s: string, v: real)
    requires AllDigits(i) && AllDigits(f) && |i| > 0
    requires s == i + "." + f
    requires v == DecimalValue(i, f)
    ensures ParseFloat(Some(s)) == Some(v)
  {
    ParseDecimalText(i, f, "");
    assert i + "." + f + "" == s;
  }

  lemma SnapshotPrice()
    ensures ParseFloat(Some("1500.00")) == Some(1500.0)
  {
    Digits1500();
    Digits00And50();
    DecimalPrice("1500", "00", "1500.00", 1500.0);
  }

  lemma TradePrice()
    ensures ParseFloat(Some("1510.50")) == Some(1510.5)
  {
    Digits1510();
    Digits00And50();
    assert Pow10(2) == 100 by {
      assert Pow10(1) == 10;
    }
    assert |"50"| == 2;
    assert DecimalValue("1510", "50") == 1510.0 + 50.0 / 100.0;
    DecimalPrice("1510", "50", "1510.50", 1510.5);
  }

  /** A batch holding only the INFY item is one pass of the snapshot loop. */
  lemma InfySnapshot(t0: Tables)
    ensures ApplySnapshotList(t0, [Infy]) == ApplySnapshot(t0, Infy)
  {
    InfyIsAccepted();
    assert Reached([Infy]) == 1;
    assert [Infy][..1] == [Infy];
    assert [Infy][..0] == [];
    assert ApplySnapshots(t0, [Infy]) == ApplySnapshot(ApplySnapshots(t0, []), Infy);
  }

  /** A snapshot for INFY under id 101 followed by a trade for id 101 at a
      higher price: the row under "INFY" carries the new price and turns green. */
  lemma SnapshotThenHigherTrade()
    ensures var t1 := ApplySnapshotList(Tables(map[], map[]), [Infy]);
      var t2 := ApplyTrade(t1, InfyTrade);
      && "INFY" in t2.data && t2.data["INFY"].ltp == Some("1510.50")
      && t2.data["INFY"].id == Some("101") && t2.data["INFY"].color == Up
  {
    InfyIsAccepted();
    InfySnapshot(Tables(map[], map[]));
    var t1 := ApplySnapshotList(Tables(map[], map[]), [Infy]);
    assert t1.ids["101"] == "INFY";
    assert t1.data["INFY"].ltp == Some("1500.00");
    SnapshotPrice();
    TradePrice();
    TradeColorRule(t1, InfyTrade);
  }

  /** A trade for an id no snapshot registered is shown under the raw id, neutral. */
  lemma TradeForUnknownId(t: Tables)
    requires "777" !in t.ids && "777" !in t.data
    ensures var r := ApplyTrade(t, Arr(["777", "09:15:00", "250.00", "1", "250.00"])).data;
      "777" in r && r["777"].name == "777" && r["777"].color == Transparent
  {
    TradeColorRule(t, Arr(["777", "09:15:00", "250.00", "1", "250.00"]));
  }

  /** Logging out and logging in again with new credentials leaves no row of
      the previous session, and the new connection is being opened. */
  method LogoutThenLogin(w: WatchlistProvider, user: string, pass: string)
    requires w.Valid() && user != "" && pass != ""
    modifies w
    ensures w.Valid()
    ensures w.marketData == map[] && w.status == Connecting && w.socket == Opening
    ensures w.credentials == Some(Creds(user, pass))
  {
    w.Login(None, None);
    w.Login(Some(user), Some(pass));
  }

  /** Mounting without credentials, logging in and the socket opening: the
      default watch-set is the only frame sent. */
  method Connect() returns (w: WatchlistProvider)
    ensures w.Valid() && w.status == Ready && w.socket == Open && w.marketData == map[]
    ensures w.outbox == [Command("addsymbol", ["NIFTY 50", "GOLD-I", "SENSEX1_BSE"])]
  {
    w := new WatchlistProvider(None);
    w.Login(Some("trader"), Some("secret"));
    w.OnOpen();
  }

  /** On an open connection, the INFY snapshot arrives and the user removes the
      row: the row is gone and one unsubscribe frame naming it and its id is sent. */
  method SnapshotThenRemove(w: WatchlistProvider)
    requires w.Valid() && w.socket == Open
    modifies w
    ensures "INFY" !in w.marketData
    ensures w.outbox == old(w.outbox) + [Command("removesymbol", ["INFY", "101"])]
  {
    InfyIsAccepted();
    InfySnapshot(w.TablesOf());
    w.OnMessage(Message(None, false, Some([Infy]), None));
    assert w.marketData["INFY"].id == Some("101");
    assert w.socket == Open;
    assert w.outbox == old(w.outbox);
    assert RemovalSymbols(Some("INFY"), Some("101")) == ["INFY", "101"];
    w.RemoveSymbol(Some("INFY"), Some("101"));
  }
}
