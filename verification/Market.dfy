/** A simulated order market: batches of orders are entered, matched at remembered prices, and expire. */
module Market {
  import opened Common

  const MSG_PER_BATCH := 10
  const MSG_TIME_DELTA := 200
  const MARKET_OPEN_PRICE := 20.0
  const MARKET_MIN_TRADES := 5000
  const TRADE_EXPIRATION := 10

  datatype Side = Buy | Sell

  datatype Status = Open | Closed | Expired

  datatype Order = Order(id: nat, side: Side, price: real, timestamp: int, status: Status)

  /** What the random model draws for one order. */
  datatype Draw = Draw(side: Side, discount: real)

  function Other(side: Side): Side {
    if side.Buy? then Sell else Buy
  }

  // ----- The table, indexed by id -----

  /** Ids count up from one in the order of entry, so they are unique and increasing. */
  predicate Numbered(rows: seq<Order>) {
    forall i :: 0 <= i < |rows| ==> rows[i].id == i + 1
  }

  function HasId(rows: seq<Order>, id: nat): bool {
    exists i :: 0 <= i < |rows| && rows[i].id == id
  }

  /** Entering a row replaces the row with its id, or adds one. */
  function Upsert(rows: seq<Order>, row: Order): seq<Order> {
    if HasId(rows, row.id) then seq(|rows|, i requires 0 <= i < |rows| => if rows[i].id == row.id then row else rows[i])
    else rows + [row]
  }

  /** Sets the status of the rows with these ids and leaves the rest of them alone. */
  function WithStatus(rows: seq<Order>, ids: set<nat>, status: Status): (r: seq<Order>)
    ensures |r| == |rows|
  {
    seq(|rows|, i requires 0 <= i < |rows| => if rows[i].id in ids then rows[i].(status := status) else rows[i])
  }

  ghost function Ids(rows: seq<Order>, side: Side, status: Status): set<nat> {
    set o | o in rows && o.side == side && o.status == status :: o.id
  }

  ghost function OpenIds(rows: seq<Order>): set<nat> {
    set o | o in rows && o.status.Open? :: o.id
  }

  function IdSet(ids: seq<nat>): set<nat> {
    set id | id in ids
  }

  lemma {:induction false} IdSetSize(ids: seq<nat>)
    requires Distinct(ids)
    ensures |IdSet(ids)| == |ids|
  {
    if ids != [] {
      var init := ids[..|ids| - 1];
      IdSetSize(init);
      assert IdSet(ids) == IdSet(init) + {ids[|ids| - 1]};
    } else {
      assert IdSet(ids) == {};
    }
  }

  lemma InsertedMembers(ids: seq<nat>, at: nat, id: nat)
    requires at <= |ids|
    ensures forall k :: k in ids[..at] + [id] + ids[at..] <==> k in ids || k == id
  {
    assert ids == ids[..at] + ids[at..];
  }

  // ----- Prices -----

  predicate IsBetter(side: Side, a: real, b: real) {
    if side.Buy? then a > b else a < b
  }

  /** The highest open bid or the lowest open offer; the opening price where there is none. */
  function BestOpenPrice(rows: seq<Order>, side: Side): real {
    if forall o :: o in rows ==> !(o.side == side && o.status.Open?) then MARKET_OPEN_PRICE
    else BestOf(rows, side)
  }

  function BestOf(rows: seq<Order>, side: Side): (p: real)
    requires exists o :: o in rows && o.side == side && o.status.Open?
    ensures exists o :: o in rows && o.side == side && o.status.Open? && o.price == p
    ensures forall o :: o in rows && o.side == side && o.status.Open? ==> !IsBetter(side, o.price, p)
  {
    var last, init := rows[|rows| - 1], rows[..|rows| - 1];
    assert rows == init + [last];
    if exists o :: o in init && o.side == side && o.status.Open? then
      var p := BestOf(init, side);
      if last.side == side && last.status.Open? && IsBetter(side, last.price, p) then last.price else p
    else last.price
  }

  predicate IsOpen(o: Order, side: Side) {
    o.side == side && o.status.Open?
  }

  /** A bid of `p` is the best one if none is higher, an offer if none is lower; twenty if there is none. */
  ghost predicate IsBestPrice(rows: seq<Order>, side: Side, p: real) {
    && ((forall o :: o in rows ==> !IsOpen(o, side)) ==> p == 20.0)
    && ((exists o :: o in rows && IsOpen(o, side)) ==>
          && (exists o :: o in rows && IsOpen(o, side) && o.price == p)
          && (forall o :: o in rows && IsOpen(o, side) ==> if side == Buy then o.price <= p else p <= o.price))
  }

  lemma BestOpenPriceMeaning(rows: seq<Order>, side: Side)
    ensures IsBestPrice(rows, side, BestOpenPrice(rows, side))
  {
    if o :| o in rows && IsOpen(o, side) {
      assert o.side == side && o.status.Open?;
      var p := BestOf(rows, side);
      var b :| b in rows && b.side == side && b.status.Open? && b.price == p;
      assert IsOpen(b, side);
    }
  }

  predicate Matches(o: Order, side: Side, price: real) {
    o.side == side && o.status.Open? && IsBetter(side, o.price, price)
  }

  /** Better price first, then the earlier time. */
  predicate Ranks(side: Side, a: Order, b: Order) {
    IsBetter(side, a.price, b.price) || (a.price == b.price && a.timestamp <= b.timestamp)
  }

  predicate Has(rows: seq<Order>, id: nat) {
    1 <= id <= |rows|
  }

  predicate RanksById(rows: seq<Order>, side: Side, a: nat, b: nat) {
    Has(rows, a) && Has(rows, b) && Ranks(side, rows[a - 1], rows[b - 1])
  }

  /** Ids of rows, none twice, each ranking before those behind it. */
  ghost predicate IsRanked(rows: seq<Order>, side: Side, ids: seq<nat>) {
    && Distinct(ids)
    && (forall id :: id in ids ==> Has(rows, id))
    && (forall i, j :: 0 <= i < j < |ids| ==> RanksById(rows, side, ids[i], ids[j]))
  }

  predicate MatchesById(rows: seq<Order>, side: Side, price: real, id: nat) {
    Has(rows, id) && Matches(rows[id - 1], side, price)
  }

  lemma InsertIsRanked(rows: seq<Order>, side: Side, ids: seq<nat>, at: nat, id: nat)
    requires Has(rows, id) && id !in ids && IsRanked(rows, side, ids) && at <= |ids|
    requires forall i :: 0 <= i < at ==> RanksById(rows, side, ids[i], id)
    requires at < |ids| ==> !RanksById(rows, side, ids[at], id)
    ensures IsRanked(rows, side, ids[..at] + [id] + ids[at..])
  {
    var r := ids[..at] + [id] + ids[at..];
    forall i | at <= i < |ids| ensures RanksById(rows, side, id, ids[i]) {
      assert Has(rows, ids[at]) && RanksById(rows, side, id, ids[at]);
      assert at < i ==> RanksById(rows, side, ids[at], ids[i]);
    }
    forall k | k in r ensures Has(rows, k) {}
    forall i, j | 0 <= i < j < |r| ensures r[i] != r[j] && RanksById(rows, side, r[i], r[j]) {
      assert r[i] == if i < at then ids[i] else if i == at then id else ids[i - 1];
      assert r[j] == if j < at then ids[j] else if j == at then id else ids[j - 1];
    }
  }

  /** All orders of the side matching at the price, best first; ties in any order. */
  ghost predicate IsRanking(rows: seq<Order>, side: Side, price: real, ids: seq<nat>)
  {
    IsRanked(rows, side, ids) && forall id: nat :: id in ids <==> MatchesById(rows, side, price, id)
  }

  // ----- One step of the market, on values -----

  /** A batch: each order priced against the best open price of the other side as it was before the batch. */
  function NewTrades(rows: seq<Order>, draws: seq<Draw>): (batch: seq<Order>)
    ensures |batch| == |draws|
  {
    seq(|draws|, i requires 0 <= i < |draws| =>
      Order(|rows| + 1 + i, draws[i].side, draws[i].discount + BestOpenPrice(rows, Other(draws[i].side)),
            (|rows| + 1) * MSG_TIME_DELTA, Open))
  }

  /** Whether pricing the batch asked for the best price of the side, so that it is remembered. */
  predicate Asked(draws: seq<Draw>, side: Side) {
    exists i :: 0 <= i < |draws| && draws[i].side == Other(side)
  }

  /** The price the other side is matched against: the remembered one, else the current best. */
  function Threshold(before: seq<Order>, entered: seq<Order>, draws: seq<Draw>, side: Side): real {
    BestOpenPrice(if Asked(draws, side) then before else entered, side)
  }

  /** The ids are matched orders, and rank before every matched order left out. */
  ghost predicate IsBest(rows: seq<Order>, side: Side, price: real, ids: seq<nat>) {
    && IsRanked(rows, side, ids)
    && (forall id :: id in ids ==> MatchesById(rows, side, price, id))
    && (forall a: nat, b: nat :: a in ids && MatchesById(rows, side, price, b) && b !in ids ==>
        RanksById(rows, side, a, b))
  }

  ghost predicate TakesAll(rows: seq<Order>, side: Side, price: real, ids: seq<nat>) {
    forall id: nat :: MatchesById(rows, side, price, id) ==> id in ids
  }

  /** Opposite orders closed in equal numbers, the best of each side, as many as there are on the shorter side. */
  ghost predicate IsClearing(rows: seq<Order>, buyPrice: real, sellPrice: real, buys: seq<nat>, sells: seq<nat>) {
    && IsBest(rows, Buy, sellPrice, buys) && IsBest(rows, Sell, buyPrice, sells)
    && |buys| == |sells|
    && (TakesAll(rows, Buy, sellPrice, buys) || TakesAll(rows, Sell, buyPrice, sells))
  }

  function Cleared(rows: seq<Order>, buys: seq<nat>, sells: seq<nat>): seq<Order> {
    WithStatus(rows, IdSet(buys + sells), Closed)
  }

  /** Open orders below the limit expire. */
  function Expire(rows: seq<Order>, limit: int): (r: seq<Order>)
    ensures |r| == |rows|
  {
    seq(|rows|, i requires 0 <= i < |rows| =>
      if rows[i].status.Open? && rows[i].id < limit then rows[i].(status := Expired) else rows[i])
  }

  /** The step from one table to the next that closes these orders. */
  ghost predicate IsStep(before: seq<Order>, draws: seq<Draw>, buys: seq<nat>, sells: seq<nat>, after: seq<Order>) {
    var entered := before + NewTrades(before, draws);
    && IsClearing(entered, Threshold(before, entered, draws, Buy), Threshold(before, entered, draws, Sell), buys, sells)
    && after == Expire(Cleared(entered, buys, sells), |entered| + 1 - MSG_PER_BATCH * TRADE_EXPIRATION)
  }

  // ----- What one step does to each order -----

  /**
   * A batch is entered open and in order, at one time; each bid is priced against the lowest open offer,
   * and each offer against the highest open bid, of the table before the batch.
   */
  lemma BatchPrices(rows: seq<Order>, draws: seq<Draw>, i: nat) returns (best: real)
    requires i < |draws|
    ensures var o := NewTrades(rows, draws)[i];
            && o.id == |rows| + 1 + i && o.side == draws[i].side && o.status == Open
            && o.timestamp == (|rows| + 1) * 200
            && o.price == draws[i].discount + best
    ensures IsBestPrice(rows, if draws[i].side == Buy then Sell else Buy, best)
  {
    best := BestOpenPrice(rows, Other(draws[i].side));
    BestOpenPriceMeaning(rows, Other(draws[i].side));
  }

  /** A bid above, or an offer below, the price. */
  predicate Crosses(o: Order, side: Side, price: real) {
    IsOpen(o, side) && if side == Buy then o.price > price else o.price < price
  }

  /** A bid is served before another if it is higher, an offer if it is lower, or at one price if it is not later. */
  predicate ServedBefore(side: Side, a: Order, b: Order) {
    (if side == Buy then a.price > b.price else a.price < b.price) || (a.price == b.price && a.timestamp <= b.timestamp)
  }

  ghost predicate Serves(rows: seq<Order>, side: Side, price: real, ids: seq<nat>) {
    && (forall id :: id in ids ==> 1 <= id <= |rows| && Crosses(rows[id - 1], side, price))
    && (forall a, b :: a in ids && 0 <= b < |rows| && 1 <= a <= |rows| ==>
          b + 1 !in ids && Crosses(rows[b], side, price) ==> ServedBefore(side, rows[a - 1], rows[b]))
  }

  ghost predicate ServesAll(rows: seq<Order>, side: Side, price: real, ids: seq<nat>) {
    forall b :: 0 <= b < |rows| && Crosses(rows[b], side, price) ==> b + 1 in ids
  }

  lemma BestAreServed(rows: seq<Order>, side: Side, price: real, ids: seq<nat>)
    requires IsBest(rows, side, price, ids)
    ensures Serves(rows, side, price, ids) && Distinct(ids)
    ensures TakesAll(rows, side, price, ids) <==> ServesAll(rows, side, price, ids)
  {
    forall id | id in ids ensures 1 <= id <= |rows| && Crosses(rows[id - 1], side, price) {
      assert MatchesById(rows, side, price, id);
    }
    forall b | 0 <= b < |rows| ensures MatchesById(rows, side, price, b + 1) <==> Crosses(rows[b], side, price) {}
    forall a, b | a in ids && 0 <= b < |rows| && 1 <= a <= |rows| && b + 1 !in ids && Crosses(rows[b], side, price)
      ensures ServedBefore(side, rows[a - 1], rows[b])
    {
      assert MatchesById(rows, side, price, b + 1) && RanksById(rows, side, a, b + 1);
    }
    if TakesAll(rows, side, price, ids) {
      forall b | 0 <= b < |rows| && Crosses(rows[b], side, price) ensures b + 1 in ids {
        assert MatchesById(rows, side, price, b + 1);
      }
    }
    if ServesAll(rows, side, price, ids) {
      forall id: nat | MatchesById(rows, side, price, id) ensures id in ids {
        assert Crosses(rows[id - 1], side, price);
      }
    }
  }

  /**
   * What a step does, order by order: bids above the offer price and offers below the bid price are
   * served best first and then in time order, as many of one as of the other, until one side has none
   * left; those orders close, open orders from more than a hundred orders ago expire, and every other
   * order stays as it was entered. Each price is the best one before the batch if the batch was priced
   * by it, else the best one after.
   */
  lemma StepMeaning(before: seq<Order>, draws: seq<Draw>, buys: seq<nat>, sells: seq<nat>, after: seq<Order>)
    returns (bid: real, offer: real)
    requires Numbered(before) && IsStep(before, draws, buys, sells, after)
    ensures var entered := before + NewTrades(before, draws);
            && IsBestPrice(if exists i :: 0 <= i < |draws| && draws[i].side == Sell then before else entered, Buy, bid)
            && IsBestPrice(if exists i :: 0 <= i < |draws| && draws[i].side == Buy then before else entered, Sell,
                           offer)
            && Serves(entered, Buy, offer, buys) && Serves(entered, Sell, bid, sells)
            && |buys| == |sells| && Distinct(buys) && Distinct(sells)
            && (ServesAll(entered, Buy, offer, buys) || ServesAll(entered, Sell, bid, sells))
            && |after| == |entered|
            && forall i :: 0 <= i < |after| ==>
                 after[i] == entered[i].(status :=
                   if i + 1 in buys || i + 1 in sells then Closed
                   else if entered[i].status == Open && i + 100 < |entered| then Expired
                   else entered[i].status)
  {
    var entered := before + NewTrades(before, draws);
    bid, offer := Threshold(before, entered, draws, Buy), Threshold(before, entered, draws, Sell);
    ThresholdsAreBest(before, entered, draws);
    BestAreServed(entered, Buy, offer, buys);
    BestAreServed(entered, Sell, bid, sells);
    EnteredIsNumbered(before, draws);
    StatusesAfter(entered, buys, sells, after);
  }

  lemma ThresholdsAreBest(before: seq<Order>, entered: seq<Order>, draws: seq<Draw>)
    ensures IsBestPrice(if exists i :: 0 <= i < |draws| && draws[i].side == Sell then before else entered, Buy,
                        Threshold(before, entered, draws, Buy))
    ensures IsBestPrice(if exists i :: 0 <= i < |draws| && draws[i].side == Buy then before else entered, Sell,
                        Threshold(before, entered, draws, Sell))
  {
    BestOpenPriceMeaning(if Asked(draws, Buy) then before else entered, Buy);
    BestOpenPriceMeaning(if Asked(draws, Sell) then before else entered, Sell);
  }

  lemma EnteredIsNumbered(before: seq<Order>, draws: seq<Draw>)
    requires Numbered(before)
    ensures Numbered(before + NewTrades(before, draws))
  {
  }

  lemma StatusesAfter(entered: seq<Order>, buys: seq<nat>, sells: seq<nat>, after: seq<Order>)
    requires Numbered(entered)
    requires after == Expire(Cleared(entered, buys, sells), |entered| + 1 - MSG_PER_BATCH * TRADE_EXPIRATION)
    ensures |after| == |entered|
    ensures forall i :: 0 <= i < |after| ==>
              after[i] == entered[i].(status :=
                if i + 1 in buys || i + 1 in sells then Closed
                else if entered[i].status == Open && i + 100 < |entered| then Expired
                else entered[i].status)
  {
    assert forall id :: id in buys + sells <==> id in buys || id in sells;
  }

  // ----- What every step keeps -----

  /** Equal numbers of buys and sells have closed. */
  ghost predicate Balanced(rows: seq<Order>) {
    |Ids(rows, Buy, Closed)| == |Ids(rows, Sell, Closed)|
  }

  /** Time runs with the ids, so that ranking by time is ranking by entry, batch by batch. */
  predicate InTimeOrder(rows: seq<Order>) {
    && (forall i :: 0 <= i < |rows| ==> rows[i].timestamp <= (i + 1) * MSG_TIME_DELTA)
    && (forall i, j :: 0 <= i < j < |rows| ==> rows[i].timestamp <= rows[j].timestamp)
  }

  /** No order stays open after ten batches. */
  predicate OnlyRecentOpen(rows: seq<Order>) {
    forall i :: 0 <= i < |rows| && rows[i].status.Open? ==> i >= |rows| - MSG_PER_BATCH * TRADE_EXPIRATION
  }

  ghost predicate Invariant(rows: seq<Order>) {
    Numbered(rows) && Balanced(rows) && InTimeOrder(rows) && OnlyRecentOpen(rows)
  }

  /** An order keeps what it was entered with, and its status once it is not open. */
  predicate Follows(before: Order, after: Order) {
    after == before.(status := after.status) && (before.status.Open? || after.status == before.status)
  }

  predicate Continues(before: seq<Order>, after: seq<Order>) {
    |before| <= |after| && forall i :: 0 <= i < |before| ==> Follows(before[i], after[i])
  }

  /** At most a hundred orders are open at once. */
  lemma FewOpen(rows: seq<Order>)
    requires Numbered(rows) && OnlyRecentOpen(rows)
    ensures |OpenIds(rows)| <= 100
  {
    var low := if |rows| > 100 then |rows| - 100 else 0;
    SubsetSize(OpenIds(rows), Range(low, |rows|));
  }

  /** The ids above `low` up to `high`. */
  ghost function Range(low: nat, high: nat): (r: set<nat>)
    requires low <= high
    ensures |r| == high - low && forall id: nat :: id in r <==> low < id <= high
  {
    if low == high then {} else Range(low, high - 1) + {high}
  }

  lemma SubsetSize<T>(a: set<T>, b: set<T>)
    requires a <= b
    ensures |a| <= |b|
  {
    assert b == a + (b - a);
  }

  lemma EnteredKeeps(before: seq<Order>, draws: seq<Draw>)
    requires Numbered(before) && Balanced(before) && InTimeOrder(before)
    ensures var entered := before + NewTrades(before, draws);
            Numbered(entered) && Balanced(entered) && InTimeOrder(entered) && Continues(before, entered)
  {
    var batch := NewTrades(before, draws);
    forall side ensures Ids(before + batch, side, Closed) == Ids(before, side, Closed) {
      forall o | o in batch ensures o.status == Open {}
    }
  }

  /** Closing matched orders adds exactly them to the closed orders of their side. */
  lemma ClosedIds(rows: seq<Order>, buyPrice: real, sellPrice: real, buys: seq<nat>, sells: seq<nat>)
    requires Numbered(rows) && IsClearing(rows, buyPrice, sellPrice, buys, sells)
    ensures var after := Cleared(rows, buys, sells);
            && Ids(after, Buy, Closed) == Ids(rows, Buy, Closed) + IdSet(buys) && Ids(rows, Buy, Closed) !! IdSet(buys)
            && Ids(after, Sell, Closed) == Ids(rows, Sell, Closed) + IdSet(sells) &&
                Ids(rows, Sell, Closed) !! IdSet(sells)
  {
    ClosedIdsOf(rows, Buy, sellPrice, buyPrice, buys, sells, IdSet(buys + sells));
    ClosedIdsOf(rows, Sell, buyPrice, sellPrice, sells, buys, IdSet(buys + sells));
  }

  lemma ClosedIdsOf(rows: seq<Order>, side: Side, price: real, otherPrice: real, ids: seq<nat>, others: seq<nat>,
                    closed: set<nat>)
    requires Numbered(rows) && closed == IdSet(ids) + IdSet(others)
    requires forall id :: id in ids ==> MatchesById(rows, side, price, id)
    requires forall id :: id in others ==> MatchesById(rows, Other(side), otherPrice, id)
    ensures Ids(WithStatus(rows, closed, Closed), side, Closed) == Ids(rows, side, Closed) + IdSet(ids)
    ensures Ids(rows, side, Closed) !! IdSet(ids)
  {
    var after := WithStatus(rows, closed, Closed);
    forall id | id in Ids(after, side, Closed) ensures id in Ids(rows, side, Closed) + IdSet(ids) {
      var i :| 0 <= i < |after| && after[i].id == id && after[i].side == side && after[i].status == Closed;
      assert rows[i] in rows;
      assert id in others ==> MatchesById(rows, Other(side), otherPrice, id);
    }
    forall id | id in Ids(rows, side, Closed) + IdSet(ids) ensures id in Ids(after, side, Closed) {
      var i := id - 1;
      if id in ids { assert MatchesById(rows, side, price, id); }
      assert rows[i].id == id && after[i] in after;
    }
    forall id | id in ids ensures id !in Ids(rows, side, Closed) {
      assert MatchesById(rows, side, price, id);
    }
  }

  /** Giving open orders a new status keeps everything else about the table. */
  lemma StatusKeeps(rows: seq<Order>, ids: set<nat>, status: Status)
    requires Numbered(rows) && InTimeOrder(rows)
    requires forall id :: id in ids ==> Has(rows, id) && rows[id - 1].status.Open?
    ensures var after := WithStatus(rows, ids, status);
            Numbered(after) && InTimeOrder(after) && Continues(rows, after)
  {
    var after := WithStatus(rows, ids, status);
    assert forall i :: 0 <= i < |rows| ==> after[i].timestamp == rows[i].timestamp;
  }

  lemma ClearedKeeps(rows: seq<Order>, buyPrice: real, sellPrice: real, buys: seq<nat>, sells: seq<nat>)
    requires Numbered(rows) && Balanced(rows) && InTimeOrder(rows)
    requires IsClearing(rows, buyPrice, sellPrice, buys, sells)
    ensures var after := Cleared(rows, buys, sells);
            Numbered(after) && Balanced(after) && InTimeOrder(after) && Continues(rows, after)
  {
    forall id | id in IdSet(buys + sells) ensures Has(rows, id) && rows[id - 1].status.Open? {
      assert if id in buys then MatchesById(rows, Buy, sellPrice, id) else MatchesById(rows, Sell, buyPrice, id);
    }
    StatusKeeps(rows, IdSet(buys + sells), Closed);
    ClearedBalance(rows, buyPrice, sellPrice, buys, sells);
  }

  lemma ClearedBalance(rows: seq<Order>, buyPrice: real, sellPrice: real, buys: seq<nat>, sells: seq<nat>)
    requires Numbered(rows) && Balanced(rows) && IsClearing(rows, buyPrice, sellPrice, buys, sells)
    ensures Balanced(Cleared(rows, buys, sells))
  {
    ClosedIds(rows, buyPrice, sellPrice, buys, sells);
    IdSetSize(buys);
    IdSetSize(sells);
  }

  lemma ExpireKeepsClosed(rows: seq<Order>, limit: int, side: Side)
    ensures Ids(Expire(rows, limit), side, Closed) == Ids(rows, side, Closed)
  {
    var after := Expire(rows, limit);
    forall o | o in rows && o.status == Closed ensures o in after {
      var i :| 0 <= i < |rows| && rows[i] == o;
      assert after[i] == o;
    }
    forall o | o in after && o.status == Closed ensures o in rows {
      var i :| 0 <= i < |after| && after[i] == o;
      assert rows[i] == o;
    }
  }

  lemma ExpireKeeps(rows: seq<Order>, limit: int)
    requires Numbered(rows) && Balanced(rows) && InTimeOrder(rows)
    ensures var after := Expire(rows, limit);
            Numbered(after) && Balanced(after) && InTimeOrder(after) && Continues(rows, after)
    ensures forall o :: o in Expire(rows, limit) && o.status.Open? ==> o.id >= limit
  {
    ExpireKeepsClosed(rows, limit, Buy);
    ExpireKeepsClosed(rows, limit, Sell);
  }

  /** Every step keeps the invariant, adds one batch, and only moves orders from open to closed or expired. */
  lemma StepKeepsInvariant(before: seq<Order>, draws: seq<Draw>, buys: seq<nat>, sells: seq<nat>, after: seq<Order>)
    requires Invariant(before) && |draws| == MSG_PER_BATCH && IsStep(before, draws, buys, sells, after)
    ensures Invariant(after) && |after| == |before| + MSG_PER_BATCH && Continues(before, after)
    ensures |OpenIds(after)| <= 100
  {
    var entered := before + NewTrades(before, draws);
    var cleared := Cleared(entered, buys, sells);
    EnteredKeeps(before, draws);
    ClearedKeeps(entered, Threshold(before, entered, draws, Buy), Threshold(before, entered, draws, Sell), buys, sells);
    ExpireKeeps(cleared, |entered| + 1 - MSG_PER_BATCH * TRADE_EXPIRATION);
    ContinuesOn(before, entered, cleared);
    ContinuesOn(before, cleared, after);
    RecentBy(after, |entered| + 1 - MSG_PER_BATCH * TRADE_EXPIRATION);
    FewOpen(after);
  }

  lemma RecentBy(rows: seq<Order>, limit: int)
    requires Numbered(rows) && limit == |rows| + 1 - MSG_PER_BATCH * TRADE_EXPIRATION
    requires forall o :: o in rows && o.status.Open? ==> o.id >= limit
    ensures OnlyRecentOpen(rows)
  {
    forall i | 0 <= i < |rows| && rows[i].status.Open? ensures i >= |rows| - MSG_PER_BATCH * TRADE_EXPIRATION {
      assert rows[i] in rows;
    }
  }

  ghost function Remembered(draws: seq<Draw>, rows: seq<Order>, side: Side): Option<real> {
    if Asked(draws, side) then Some(BestOpenPrice(rows, side)) else None
  }

  /** Entering, clearing at the remembered prices and expiring make up a step. */
  lemma StepFrom(before: seq<Order>, draws: seq<Draw>, entered: seq<Order>, buyMemo: Option<real>,
                 sellMemo: Option<real>,
                 buys: seq<nat>, sells: seq<nat>, after: seq<Order>)
    requires Invariant(before) && |draws| == MSG_PER_BATCH
    requires entered == before + NewTrades(before, draws)
    requires buyMemo == Remembered(draws, before, Buy) && sellMemo == Remembered(draws, before, Sell)
    requires IsClearing(entered, if buyMemo.Some? then buyMemo.value else BestOpenPrice(entered, Buy),
                        if sellMemo.Some? then sellMemo.value else BestOpenPrice(entered, Sell), buys, sells)
    requires after == Expire(Cleared(entered, buys, sells), |entered| + 1 - MSG_PER_BATCH * TRADE_EXPIRATION)
    ensures IsStep(before, draws, buys, sells, after)
    ensures Invariant(after) && |after| == |before| + MSG_PER_BATCH && Continues(before, after)
  {
    StepKeepsInvariant(before, draws, buys, sells, after);
  }

  lemma ContinuesOn(first: seq<Order>, second: seq<Order>, third: seq<Order>)
    requires Continues(first, second) && Continues(second, third)
    ensures Continues(first, third)
  {
    forall i | 0 <= i < |first| ensures Follows(first[i], third[i]) {
      assert Follows(first[i], second[i]) && Follows(second[i], third[i]);
    }
  }

  lemma NextDraw(rows: seq<Order>, draws: seq<Draw>, i: nat)
    requires i < |draws|
    ensures NewTrades(rows, draws[..i + 1]) == NewTrades(rows, draws[..i]) +
            [Order(|rows| + 1 + i, draws[i].side, draws[i].discount + BestOpenPrice(rows, Other(draws[i].side)),
                   (|rows| + 1) * MSG_TIME_DELTA, Open)]
  {
  }

  lemma AskedNext(draws: seq<Draw>, i: nat, side: Side)
    requires i < |draws|
    ensures Asked(draws[..i + 1], side) <==> Asked(draws[..i], side) || draws[i].side == Other(side)
  {
    var next := draws[..i + 1];
    assert next == draws[..i] + [draws[i]];
    assert next[i] == draws[i] && forall k :: 0 <= k < i ==> next[k] == draws[..i][k];
  }

  lemma ExpireByIds(rows: seq<Order>, limit: int, expired: set<nat>)
    requires Numbered(rows)
    requires forall id: nat :: id in expired <==> Has(rows, id) && rows[id - 1].status.Open? && id < limit
    ensures WithStatus(rows, expired, Expired) == Expire(rows, limit)
    ensures expired == {} ==> Expire(rows, limit) == rows
  {
    forall i | 0 <= i < |rows| ensures rows[i].id in expired <==> rows[i].status.Open? && rows[i].id < limit {}
  }

  lemma FirstAreBest(rows: seq<Order>, side: Side, price: real, all: seq<nat>, n: nat)
    requires IsRanking(rows, side, price, all) && n <= |all|
    ensures IsBest(rows, side, price, all[..n])
    ensures n == |all| ==> TakesAll(rows, side, price, all[..n])
  {
    forall a: nat, b: nat | a in all[..n] && MatchesById(rows, side, price, b) && b !in all[..n]
      ensures RanksById(rows, side, a, b)
    {
      assert b in all;
      var i :| 0 <= i < n && all[i] == a;
      var j :| 0 <= j < |all| && all[j] == b;
    }
  }

  class Table {
    var rows: seq<Order>

    constructor ()
      ensures rows == []
    {
      rows := [];
    }

    method Update(batch: seq<Order>)
      requires Numbered(rows)
      requires forall i :: 0 <= i < |batch| ==> batch[i].id == |rows| + 1 + i
      modifies this
      ensures rows == old(rows) + batch && Numbered(rows)
    {
      for i := 0 to |batch|
        invariant rows == old(rows) + batch[..i]
        invariant Numbered(rows)
      {
        assert batch[..i + 1] == batch[..i] + [batch[i]];
        assert !HasId(rows, batch[i].id);
        rows := Upsert(rows, batch[i]);
      }
      assert batch[..|batch|] == batch;
    }
  }

  class OrderBook {
    const table: Table
    const side: Side
    /** The best price this step first asked for; it outlives later changes of the table. */
    var memo: Option<real>

    constructor (table: Table, side: Side)
      ensures this.table == table && this.side == side && memo == None
    {
      this.table, this.side, memo := table, side, None;
    }

    method AskBestOpenPrice() returns (p: real)
      modifies this
      ensures p == if old(memo).Some? then old(memo).value else BestOpenPrice(table.rows, side)
      ensures memo == Some(p)
    {
      if memo == None {
        memo := Some(BestOpenPrice(table.rows, side));
      }
      p := memo.value;
    }

    /** Inserts an order behind those that rank before it. */
    static method InsertRanked(rows: seq<Order>, side: Side, ids: seq<nat>, id: nat) returns (r: seq<nat>)
      requires Has(rows, id) && id !in ids && IsRanked(rows, side, ids)
      ensures IsRanked(rows, side, r) && forall k :: k in r <==> k in ids || k == id
    {
      var at := 0;
      while at < |ids| && RanksById(rows, side, ids[at], id)
        invariant at <= |ids|
        invariant forall i :: 0 <= i < at ==> RanksById(rows, side, ids[i], id)
      {
        at := at + 1;
      }
      InsertIsRanked(rows, side, ids, at, id);
      r := ids[..at] + [id] + ids[at..];
      InsertedMembers(ids, at, id);
    }

    /** The open orders of the side whose price beats the given one. */
    method MatchedOrders(price: real) returns (ids: seq<nat>)
      ensures IsRanking(table.rows, side, price, ids)
    {
      ids := [];
      var rows := table.rows;
      for n := 0 to |rows|
        invariant IsRanked(rows, side, ids)
        invariant forall id: nat :: id in ids <==> id <= n && MatchesById(rows, side, price, id)
      {
        assert MatchesById(rows, side, price, n + 1) <==> Matches(rows[n], side, price);
        if Matches(rows[n], side, price) {
          ids := InsertRanked(rows, side, ids, n + 1);
        }
      }
    }

    method Reset()
      modifies this
      ensures memo == None
    {
      memo := None;
    }
  }
  class Market {
    var id: nat
    const table: Table
    const buyBook: OrderBook
    const sellBook: OrderBook

    ghost predicate Wired() {
      && buyBook != sellBook && buyBook.table == table && sellBook.table == table
      && buyBook.side == Buy && sellBook.side == Sell
    }

    /** Between steps the ids continue the table's, nothing is remembered, and the table's invariant holds. */
    ghost predicate Valid()
      reads this, table, buyBook, sellBook
    {
      Wired() && id == |table.rows| + 1 && Invariant(table.rows) && buyBook.memo == None && sellBook.memo == None
    }

    constructor ()
      ensures Valid() && id == 1 && fresh(table) && fresh(buyBook) && fresh(sellBook)
    {
      var t := new Table();
      table := t;
      buyBook := new OrderBook(t, Buy);
      sellBook := new OrderBook(t, Sell);
      id := 1;
      new;
      assert Ids(table.rows, Buy, Closed) == {} && Ids(table.rows, Sell, Closed) == {};
    }

    function Batch(model: nat -> Draw, id: nat): (draws: seq<Draw>)
      ensures |draws| == MSG_PER_BATCH
    {
      seq(MSG_PER_BATCH, i requires 0 <= i => model(id + i))
    }

    method GenerateTrades(draws: seq<Draw>)
      requires Valid()
      modifies this, table, buyBook, sellBook
      ensures table.rows == old(table.rows) + NewTrades(old(table.rows), draws) && Numbered(table.rows)
      ensures id == old(id) + |draws|
      ensures buyBook.memo == Remembered(draws, old(table.rows), Buy)
      ensures sellBook.memo == Remembered(draws, old(table.rows), Sell)
    {
      var trades: seq<Order> := [];
      var timestamp := id * MSG_TIME_DELTA;
      ghost var rows := table.rows;
      for i := 0 to |draws|
        invariant table.rows == rows && id == |rows| + 1 + i
        invariant trades == NewTrades(rows, draws[..i])
        invariant buyBook.memo == Remembered(draws[..i], rows, Buy)
        invariant sellBook.memo == Remembered(draws[..i], rows, Sell)
      {
        var draw := draws[i];
        var book := if draw.side == Buy then sellBook else buyBook;
        NextDraw(rows, draws, i);
        AskedNext(draws, i, Buy);
        AskedNext(draws, i, Sell);
        var best := book.AskBestOpenPrice();
        trades := trades + [Order(id, draw.side, draw.discount + best, timestamp, Open)];
        id := id + 1;
      }
      assert draws[..|draws|] == draws;
      table.Update(trades);
    }

    /** Closes the best matches of both sides; the orders it closed are returned. */
    method ClearTrades() returns (buys: seq<nat>, sells: seq<nat>)
      requires Wired() && Numbered(table.rows)
      modifies table, buyBook, sellBook
      ensures var buyPrice := old(if buyBook.memo.Some? then buyBook.memo.value else BestOpenPrice(table.rows, Buy));
              var sellPrice := old(if sellBook.memo.Some?
                  then sellBook.memo.value else BestOpenPrice(table.rows, Sell));
              IsClearing(old(table.rows), buyPrice, sellPrice, buys, sells)
      ensures table.rows == Cleared(old(table.rows), buys, sells) && Numbered(table.rows)
    {
      var sellPrice := sellBook.AskBestOpenPrice();
      var buyPrice := buyBook.AskBestOpenPrice();
      var allBuys := buyBook.MatchedOrders(sellPrice);
      var allSells := sellBook.MatchedOrders(buyPrice);
      var n := if |allBuys| < |allSells| then |allBuys| else |allSells|;
      buys, sells := allBuys[..n], allSells[..n];
      FirstAreBest(table.rows, Buy, sellPrice, allBuys, n);
      FirstAreBest(table.rows, Sell, buyPrice, allSells, n);
      if buys + sells != [] {
        table.rows := WithStatus(table.rows, IdSet(buys + sells), Closed);
      } else {
        assert WithStatus(table.rows, IdSet(buys + sells), Closed) == table.rows;
      }
    }

    method ExpireTrades()
      requires Numbered(table.rows)
      modifies table
      ensures table.rows == Expire(old(table.rows), id - MSG_PER_BATCH * TRADE_EXPIRATION)
    {
      var limit := id - MSG_PER_BATCH * TRADE_EXPIRATION;
      var rows := table.rows;
      var expired := set i | 0 <= i < |rows| && rows[i].status.Open? && rows[i].id < limit :: rows[i].id;
      ExpireByIds(rows, limit, expired);
      if expired != {} {
        table.rows := WithStatus(rows, expired, Expired);
      }
    }

    method RunMarketStep(draws: seq<Draw>) returns (buys: seq<nat>, sells: seq<nat>)
      requires Valid() && |draws| == MSG_PER_BATCH
      modifies this, table, buyBook, sellBook
      ensures Valid() && id == old(id) + MSG_PER_BATCH
      ensures IsStep(old(table.rows), draws, buys, sells, table.rows)
      ensures Continues(old(table.rows), table.rows)
    {
      ghost var before := table.rows;
      GenerateTrades(draws);
      ghost var entered, buyMemo, sellMemo := table.rows, buyBook.memo, sellBook.memo;
      buys, sells := ClearTrades();
      ExpireTrades();
      StepFrom(before, draws, entered, buyMemo, sellMemo, buys, sells, table.rows);
      buyBook.Reset();
      sellBook.Reset();
    }

    /** Steps once, and on until enough orders have been entered. */
    method Poll(model: nat -> Draw)
      requires Valid()
      modifies this, table, buyBook, sellBook
      ensures Valid() && Continues(old(table.rows), table.rows)
      ensures id >= MARKET_MIN_TRADES && (id == old(id) + MSG_PER_BATCH || id < MARKET_MIN_TRADES + MSG_PER_BATCH)
      ensures |OpenIds(table.rows)| <= 100
    {
      ghost var first := table.rows;
      var _, _ := RunMarketStep(Batch(model, id));
      while id < MARKET_MIN_TRADES
        invariant Valid() && Continues(first, table.rows)
        invariant id == old(id) + MSG_PER_BATCH || id < MARKET_MIN_TRADES + MSG_PER_BATCH
      {
        ghost var before := table.rows;
        var _, _ := RunMarketStep(Batch(model, id));
        ContinuesOn(first, before, table.rows);
      }
      FewOpen(table.rows);
    }
  }
}
