/** The two tables the watchlist keeps, and the pure old-table -> new-table
    transforms its state updaters apply: one `symbollist` snapshot item, a
    `trade` delta, and the local removal of rows. */
module Quotes {
  import opened JsValues
  import opened Price

  /** The `color` of a row: neutral, the "up" green or the "down" red. */
  datatype Color = Transparent | Up | Down
  {
    function Css(): string
    {
      match this
      case Transparent => "transparent"
      case Up => "#a7f2a7"
      case Down => "#ff6b6b"
    }
  }

  /** One row of `marketData`. */
  datatype Quote = Quote(
    name: string, id: Field, time: Field, ltp: Field, ltq: Field, atp: Field,
    volume: Field, open: Field, high: Field, low: Field, close: Field, color: Color)

  /** An element of a `symbollist`, or the value of `trade`: an array, or any other value. */
  datatype Item = Arr(elems: seq<string>) | NonArray

  /** `marketData` (name -> row) and `idToNameMap` (feed id -> name). */
  datatype Tables = Tables(data: map<string, Quote>, ids: map<string, string>)

  /** A row is stored under its own name. */
  ghost predicate KeyedByName(data: map<string, Quote>)
  {
    forall k :: k in data ==> data[k].name == k
  }

  const InvalidMarker := "Invalid"

  // ---------------------------------------------------------------- snapshots

  /** An empty array: its `item[0]` is undefined, so `symName.includes` throws
      and the rest of the batch is abandoned. */
  predicate Throws(item: Item)
  {
    item.Arr? && |item.elems| == 0
  }

  /** An item the snapshot loop stores: an array whose name has no "Invalid" in it. */
  predicate Accepted(item: Item)
  {
    item.Arr? && |item.elems| > 0 && !Contains(item.elems[0], InvalidMarker)
  }

  /** The row a snapshot array gives: positions 0 to 10, neutral colour. */
  function SnapshotRecord(s: seq<string>): Quote
    requires |s| > 0
  {
    Quote(s[0], At(s, 1), At(s, 2), At(s, 3), At(s, 4), At(s, 5), At(s, 6),
          At(s, 7), At(s, 8), At(s, 9), At(s, 10), Transparent)
  }

  /** The registry key a snapshot array registers. */
  function IdKey(s: seq<string>): string
  {
    KeyOf(At(s, 1))
  }

  /** One pass of the snapshot loop over an item that does not throw. */
  function ApplySnapshot(t: Tables, item: Item): Tables
    requires !Throws(item)
  {
    if Accepted(item) then
      var s := item.elems;
      Tables(t.data[s[0] := SnapshotRecord(s)], t.ids[IdKey(s) := s[0]])
    else t
  }

  predicate NoThrow(items: seq<Item>)
  {
    forall j :: 0 <= j < |items| ==> !Throws(items[j])
  }

  /** How many items the snapshot loop completes before one throws. */
  function Reached(items: seq<Item>): (n: nat)
    ensures n <= |items|
    ensures NoThrow(items[..n])
    ensures n < |items| ==> Throws(items[n])
  {
    if items == [] || Throws(items[0]) then 0
    else
      var n := 1 + Reached(items[1..]);
      assert items[..n] == [items[0]] + items[1..][..n - 1];
      n
  }

  /** The loop stops at the first item that throws. */
  lemma ReachedIsFirstThrow(items: seq<Item>, i: nat)
    requires i < |items| && NoThrow(items[..i]) && Throws(items[i])
    ensures Reached(items) == i
  {
    var n := Reached(items);
    assert forall j :: 0 <= j < i ==> items[..i][j] == items[j];
    assert forall j :: 0 <= j < n ==> items[..n][j] == items[j];
  }

  /** The snapshot loop over a batch in which nothing throws, in order. */
  function ApplySnapshots(t: Tables, items: seq<Item>): Tables
    requires NoThrow(items)
  {
    if items == [] then t
    else ApplySnapshot(ApplySnapshots(t, items[..|items| - 1]), items[|items| - 1])
  }

  /** A whole `symbollist` message: the items up to the first one that throws. */
  function ApplySnapshotList(t: Tables, items: seq<Item>): Tables
  {
    ApplySnapshots(t, items[..Reached(items)])
  }

  /** The row of the last accepted item named `k`, if there is one. */
  function LastSnapshot(items: seq<Item>, k: string): Option<Quote>
  {
    if items == [] then None
    else
      var last := items[|items| - 1];
      if Accepted(last) && last.elems[0] == k then Some(SnapshotRecord(last.elems))
      else LastSnapshot(items[..|items| - 1], k)
  }

  /** The name the last accepted item with registry key `key` registers, if any. */
  function LastRegistration(items: seq<Item>, key: string): Option<string>
  {
    if items == [] then None
    else
      var last := items[|items| - 1];
      if Accepted(last) && IdKey(last.elems) == key then Some(last.elems[0])
      else LastRegistration(items[..|items| - 1], key)
  }

  /** Overlay: the value from the batch if it has one, the old entry otherwise. */
  function Overlay<V>(m: map<string, V>, k: string, o: Option<V>): Option<V>
  {
    if o.Some? then o else if k in m then Some(m[k]) else None
  }

  function Lookup<V>(m: map<string, V>, k: string): Option<V>
  {
    if k in m then Some(m[k]) else None
  }

  /** Key by key, a batch leaves each row as its last accepted item gives it,
      and every row no accepted item names as it was. */
  lemma {:induction false} SnapshotsData(t: Tables, items: seq<Item>, k: string)
    requires NoThrow(items)
    ensures Lookup(ApplySnapshots(t, items).data, k) == Overlay(t.data, k, LastSnapshot(items, k))
  {
    if items != [] {
      var init := items[..|items| - 1];
      assert NoThrow(init) by {
        forall j | 0 <= j < |init| ensures !Throws(init[j]) {
          assert init[j] == items[j];
        }
      }
      SnapshotsData(t, init, k);
    }
  }

  /** Key by key, the registry after a batch. */
  lemma {:induction false} SnapshotsIds(t: Tables, items: seq<Item>, key: string)
    requires NoThrow(items)
    ensures Lookup(ApplySnapshots(t, items).ids, key) == Overlay(t.ids, key, LastRegistration(items, key))
  {
    if items != [] {
      var init := items[..|items| - 1];
      assert NoThrow(init) by {
        forall j | 0 <= j < |init| ensures !Throws(init[j]) {
          assert init[j] == items[j];
        }
      }
      SnapshotsIds(t, init, key);
    }
  }

  /** The last accepted item with a given name is the one whose row stays. */
  lemma {:induction false} LastSnapshotIsLatest(items: seq<Item>, j: nat)
    requires j < |items| && Accepted(items[j])
    requires forall i :: j < i < |items| && Accepted(items[i]) ==> items[i].elems[0] != items[j].elems[0]
    ensures LastSnapshot(items, items[j].elems[0]) == Some(SnapshotRecord(items[j].elems))
  {
    if j < |items| - 1 {
      var init := items[..|items| - 1];
      assert init[j] == items[j];
      LastSnapshotIsLatest(init, j);
    }
  }

  /** No accepted item with name `k`: the batch has no row for `k`. */
  lemma {:induction false} LastSnapshotNone(items: seq<Item>, k: string)
    requires forall i :: 0 <= i < |items| && Accepted(items[i]) ==> items[i].elems[0] != k
    ensures LastSnapshot(items, k) == None
  {
    if items != [] {
      var init := items[..|items| - 1];
      assert forall i :: 0 <= i < |init| ==> init[i] == items[i];
      LastSnapshotNone(init, k);
    }
  }

  lemma {:induction false} LastRegistrationIsLatest(items: seq<Item>, j: nat)
    requires j < |items| && Accepted(items[j])
    requires forall i :: j < i < |items| && Accepted(items[i]) ==> IdKey(items[i].elems) != IdKey(items[j].elems)
    ensures LastRegistration(items, IdKey(items[j].elems)) == Some(items[j].elems[0])
  {
    if j < |items| - 1 {
      var init := items[..|items| - 1];
      assert init[j] == items[j];
      LastRegistrationIsLatest(init, j);
    }
  }

  lemma {:induction false} LastRegistrationNone(items: seq<Item>, key: string)
    requires forall i :: 0 <= i < |items| && Accepted(items[i]) ==> IdKey(items[i].elems) != key
    ensures LastRegistration(items, key) == None
  {
    if items != [] {
      var init := items[..|items| - 1];
      assert forall i :: 0 <= i < |init| ==> init[i] == items[i];
      LastRegistrationNone(init, key);
    }
  }

  /** An accepted item that no later item of the batch renames stays in the
      table under its name, with its fields taken from positions 0 to 10 and
      the neutral colour. */
  lemma SnapshotListStores(t: Tables, items: seq<Item>, j: nat)
    requires j < Reached(items) && Accepted(items[j])
    requires forall i :: j < i < Reached(items) && Accepted(items[i]) ==> items[i].elems[0] != items[j].elems[0]
    ensures var s := items[j].elems; var r := ApplySnapshotList(t, items).data;
      && s[0] in r
      && r[s[0]].name == s[0] && r[s[0]].id == At(s, 1) && r[s[0]].time == At(s, 2)
      && r[s[0]].ltp == At(s, 3) && r[s[0]].ltq == At(s, 4) && r[s[0]].atp == At(s, 5)
      && r[s[0]].volume == At(s, 6) && r[s[0]].open == At(s, 7) && r[s[0]].high == At(s, 8)
      && r[s[0]].low == At(s, 9) && r[s[0]].close == At(s, 10) && r[s[0]].color == Transparent
  {
    var done := items[..Reached(items)];
    assert done[j] == items[j];
    LastSnapshotIsLatest(done, j);
    SnapshotsData(t, done, items[j].elems[0]);
  }

  /** An accepted item that no later item re-registers leaves `idToNameMap[item[1]]`
      equal to its name. */
  lemma SnapshotListRegisters(t: Tables, items: seq<Item>, j: nat)
    requires j < Reached(items) && Accepted(items[j])
    requires forall i :: j < i < Reached(items) && Accepted(items[i]) ==> IdKey(items[i].elems) != IdKey(items[j].elems)
    ensures var s := items[j].elems; var r := ApplySnapshotList(t, items).ids;
      IdKey(s) in r && r[IdKey(s)] == s[0]
  {
    var done := items[..Reached(items)];
    assert done[j] == items[j];
    LastRegistrationIsLatest(done, j);
    SnapshotsIds(t, done, IdKey(items[j].elems));
  }

  /** A name that no accepted item of the batch carries keeps its old row (or
      its absence): skipped items touch nothing. */
  lemma SnapshotListKeeps(t: Tables, items: seq<Item>, k: string)
    requires forall i :: 0 <= i < Reached(items) && Accepted(items[i]) ==> items[i].elems[0] != k
    ensures Lookup(ApplySnapshotList(t, items).data, k) == Lookup(t.data, k)
  {
    var done := items[..Reached(items)];
    assert forall i :: 0 <= i < |done| ==> done[i] == items[i];
    LastSnapshotNone(done, k);
    SnapshotsData(t, done, k);
  }

  /** A registry key that no accepted item of the batch carries keeps its old name. */
  lemma SnapshotListKeepsIds(t: Tables, items: seq<Item>, key: string)
    requires forall i :: 0 <= i < Reached(items) && Accepted(items[i]) ==> IdKey(items[i].elems) != key
    ensures Lookup(ApplySnapshotList(t, items).ids, key) == Lookup(t.ids, key)
  {
    var done := items[..Reached(items)];
    assert forall i :: 0 <= i < |done| ==> done[i] == items[i];
    LastRegistrationNone(done, key);
    SnapshotsIds(t, done, key);
  }

  lemma LookupExt<V>(a: map<string, V>, b: map<string, V>)
    requires forall k :: Lookup(a, k) == Lookup(b, k)
    ensures a == b
  {
    assert a.Keys == b.Keys by {
      forall k ensures k in a <==> k in b {
        assert Lookup(a, k) == Lookup(b, k);
      }
    }
    forall k | k in a ensures a[k] == b[k] {
      assert Lookup(a, k) == Lookup(b, k);
    }
  }

  /** Applying the same `symbollist` twice gives what applying it once gives. */
  lemma SnapshotListIdempotent(t: Tables, items: seq<Item>)
    ensures ApplySnapshotList(ApplySnapshotList(t, items), items) == ApplySnapshotList(t, items)
  {
    var done := items[..Reached(items)];
    var once := ApplySnapshotList(t, items);
    var twice := ApplySnapshotList(once, items);
    forall k ensures Lookup(twice.data, k) == Lookup(once.data, k) {
      SnapshotsData(t, done, k);
      SnapshotsData(once, done, k);
    }
    forall k ensures Lookup(twice.ids, k) == Lookup(once.ids, k) {
      SnapshotsIds(t, done, k);
      SnapshotsIds(once, done, k);
    }
    LookupExt(twice.data, once.data);
    LookupExt(twice.ids, once.ids);
  }

  /** A name containing "Invalid" never gets a row from a snapshot batch. */
  lemma InvalidNeverInserted(t: Tables, items: seq<Item>, k: string)
    requires Contains(k, InvalidMarker)
    ensures Lookup(ApplySnapshotList(t, items).data, k) == Lookup(t.data, k)
  {
    SnapshotListKeeps(t, items, k);
  }

  /** Every row a batch stores is keyed by its own name. */
  lemma {:induction false} SnapshotsKeepKeyedByName(t: Tables, items: seq<Item>)
    requires NoThrow(items) && KeyedByName(t.data)
    ensures KeyedByName(ApplySnapshots(t, items).data)
  {
    if items != [] {
      var init := items[..|items| - 1];
      assert NoThrow(init) by {
        forall j | 0 <= j < |init| ensures !Throws(init[j]) {
          assert init[j] == items[j];
        }
      }
      SnapshotsKeepKeyedByName(t, init);
    }
  }

  // ------------------------------------------------------------------- trades

  /** A `trade` value the handler goes on with: an array of at least 5 elements. */
  predicate WellFormedTrade(trade: Item)
  {
    trade.Arr? && |trade.elems| >= 5
  }

  /** `idToNameMap[raw] || raw`: the registered name when it is present and
      non-empty, the raw id otherwise. */
  function ResolveName(ids: map<string, string>, raw: string): string
  {
    if raw in ids && ids[raw] != "" then ids[raw] else raw
  }

  /** The colour a trade gives a row that had `prev` (if any), for the new price `newLtp`.
      Without a previous row the baseline is the new price itself. */
  function TradeColor(prev: Option<Quote>, newLtp: Option<real>): Color
  {
    var oldLtp := if prev.Some? then ParseFloat(prev.value.ltp) else newLtp;
    var kept := if prev.Some? then prev.value.color else Transparent;
    if Greater(newLtp, oldLtp) then Up
    else if Less(newLtp, oldLtp) then Down
    else kept
  }

  /** The row a trade array writes under `name`. Every field of a previous
      row is overwritten except that its price and colour feed the new colour. */
  function TradeRecord(prev: Option<Quote>, name: string, s: seq<string>): Quote
    requires |s| >= 5
  {
    Quote(name, Some(s[0]), At(s, 1), At(s, 2), At(s, 3), At(s, 4), At(s, 5),
          At(s, 6), At(s, 7), At(s, 8), At(s, 9), TradeColor(prev, ParseFloat(At(s, 2))))
  }

  /** The trade updater: `prev` with the row for `realName` rewritten. */
  function TradeUpdate(prev: map<string, Quote>, realName: string, s: seq<string>): map<string, Quote>
    requires |s| >= 5
  {
    prev[realName := TradeRecord(Lookup(prev, realName), realName, s)]
  }

  /** A `trade` message: rejected unless well formed, otherwise its id is
      resolved and the updater applied; the registry is never written. */
  function ApplyTrade(t: Tables, trade: Item): (r: Tables)
    ensures r.ids == t.ids
    ensures !WellFormedTrade(trade) ==> r == t
    ensures WellFormedTrade(trade) ==>
      var name := ResolveName(t.ids, trade.elems[0]);
      && r.data.Keys == t.data.Keys + {name}
      && forall k :: k in t.data && k != name ==> r.data[k] == t.data[k]
  {
    if !WellFormedTrade(trade) then t
    else
      Tables(TradeUpdate(t.data, ResolveName(t.ids, trade.elems[0]), trade.elems), t.ids)
  }

  /** A trade is stored under the registered name of its id when there is a
      non-empty one, and under the raw id otherwise; the row carries that name,
      the raw id, and time through close from positions 1 to 9. */
  lemma TradeStores(t: Tables, trade: Item)
    requires WellFormedTrade(trade)
    ensures var s := trade.elems; var raw := s[0];
      var key := if raw in t.ids && t.ids[raw] != "" then t.ids[raw] else raw;
      var r := ApplyTrade(t, trade).data;
      && key in r
      && r[key].name == key && r[key].id == Some(raw) && r[key].time == At(s, 1)
      && r[key].ltp == At(s, 2) && r[key].ltq == At(s, 3) && r[key].atp == At(s, 4)
      && r[key].volume == At(s, 5) && r[key].open == At(s, 6) && r[key].high == At(s, 7)
      && r[key].low == At(s, 8) && r[key].close == At(s, 9)
  {
  }

  /** The colour rule: up when the new price is above the previous one, down
      when below, and otherwise (equal, or either price NaN) the previous
      colour; a row seen for the first time is neutral. */
  lemma TradeColorRule(t: Tables, trade: Item)
    requires WellFormedTrade(trade)
    ensures var name := ResolveName(t.ids, trade.elems[0]);
      var c := ApplyTrade(t, trade).data[name].color;
      var newLtp := ParseFloat(At(trade.elems, 2));
      && (name !in t.data ==> c == Transparent)
      && (name in t.data ==>
            var oldLtp := ParseFloat(t.data[name].ltp);
            && (c == Up <==> Greater(newLtp, oldLtp) || (!Less(newLtp, oldLtp) && t.data[name].color == Up))
            && (c == Down <==> Less(newLtp, oldLtp) || (!Greater(newLtp, oldLtp) && t.data[name].color == Down))
            && (!Greater(newLtp, oldLtp) && !Less(newLtp, oldLtp) ==> c == t.data[name].color))
  {
    var name := ResolveName(t.ids, trade.elems[0]);
    var newLtp := ParseFloat(At(trade.elems, 2));
    assert ApplyTrade(t, trade).data[name] == TradeRecord(Lookup(t.data, name), name, trade.elems);
    if name !in t.data {
      assert !Greater(newLtp, newLtp) && !Less(newLtp, newLtp);
    }
  }

  /** A trade keeps a table whose rows are keyed by their names so keyed. */
  lemma TradeKeepsKeyedByName(t: Tables, trade: Item)
    requires KeyedByName(t.data)
    ensures KeyedByName(ApplyTrade(t, trade).data)
  {
  }

  // ------------------------------------------------------------------ removal

  /** `(symName && row.name === symName) || (symID && row.id === symID)`. */
  predicate Matches(row: Quote, symName: Field, symID: Field)
  {
    (Truthy(symName) && row.name == symName.value) || (Truthy(symID) && row.id == symID)
  }

  /** The table without the rows that match. */
  function Remaining(prev: map<string, Quote>, symName: Field, symID: Field): map<string, Quote>
  {
    map k | k in prev && !Matches(prev[k], symName, symID) :: prev[k]
  }

  /** The removal updater: rebuild the table key by key, keeping the rows that
      do not match. */
  method KeepUnmatched(prev: map<string, Quote>, symName: Field, symID: Field)
    returns (next: map<string, Quote>)
    ensures next == Remaining(prev, symName, symID)
  {
    next := map[];
    var todo := prev.Keys;
    while todo != {}
      invariant todo <= prev.Keys
      invariant next == map k | k in prev.Keys - todo && !Matches(prev[k], symName, symID) :: prev[k]
      decreases todo
    {
      var key :| key in todo;
      if !Matches(prev[key], symName, symID) {
        next := next[key := prev[key]];
      }
      todo := todo - {key};
    }
  }

  /** Removal deletes exactly the matching rows and keeps every other row under its key. */
  lemma RemainingExactly(prev: map<string, Quote>, symName: Field, symID: Field, k: string)
    ensures k in Remaining(prev, symName, symID) <==> k in prev && !Matches(prev[k], symName, symID)
    ensures k in Remaining(prev, symName, symID) ==> Remaining(prev, symName, symID)[k] == prev[k]
  {
  }

  /** Removing a name and id no row carries changes nothing. */
  lemma RemoveUnknown(prev: map<string, Quote>, symName: Field, symID: Field)
    requires forall k :: k in prev ==> !Matches(prev[k], symName, symID)
    ensures Remaining(prev, symName, symID) == prev
  {
  }

  /** With a name alone, the rows with that name go; with an id alone, the
      rows with that id go; a falsy criterion matches nothing. */
  lemma RemoveByEither(prev: map<string, Quote>, n: string, id: string, k: string)
    requires k in prev
    ensures n != "" ==> (k in Remaining(prev, Some(n), None) <==> prev[k].name != n)
    ensures id != "" ==> (k in Remaining(prev, None, Some(id)) <==> prev[k].id != Some(id))
    ensures k in Remaining(prev, Some(""), None) && k in Remaining(prev, None, None)
  {
  }

  /** Removal keeps a table whose rows are keyed by their names so keyed. */
  lemma RemainingKeyedByName(prev: map<string, Quote>, symName: Field, symID: Field)
    requires KeyedByName(prev)
    ensures KeyedByName(Remaining(prev, symName, symID))
  {
  }
}
