/**
  The `bid` table as the bid modal sees it: an append-only ledger that
  `placeBid` writes to and the "highest bid" query reads from.
 */
module BidStore {
  import opened Wrappers

  /** A row of `bid`; id and creation time are left to the store. */
  datatype Bid = Bid(itemId: string, bidderId: string, amount: int)

  /** What an awaited store call reports: a plain message or an error object. */
  datatype StoreError = ErrorText(text: string) | ErrorObject(message: string)

  const NotLoggedIn: string := "You must be logged in to bid."

  /**
    The bid ledger. `PlaceBid` performs no amount check and no end-time check:
    whatever an authenticated caller asks for is appended.
   */
  class Ledger {
    var bids: seq<Bid>
    /** Every call of `PlaceBid`, as (item, amount), successful or not. */
    ghost var attempts: seq<(string, int)>

    constructor (initial: seq<Bid>)
      ensures bids == initial && attempts == []
    {
      bids := initial;
      attempts := [];
    }

    /**
      `placeBid(itemId, amount)`: with no signed-in user, the login error and
      no write; otherwise one insert of `{item_id, bidder_id, amount}`, which
      either succeeds or reports the store's error (`insertFault`).
     */
    method PlaceBid(itemId: string, user: Option<string>, amount: int, insertFault: Option<StoreError>)
        returns (error: Option<StoreError>)
      modifies this
      ensures attempts == old(attempts) + [(itemId, amount)]
      ensures user.None? ==> error == Some(ErrorText(NotLoggedIn)) && bids == old(bids)
      ensures user.Some? && insertFault.Some? ==> error == insertFault && bids == old(bids)
      ensures user.Some? && insertFault.None? ==>
                error.None? && bids == old(bids) + [Bid(itemId, user.value, amount)]
    {
      attempts := attempts + [(itemId, amount)];
      if user.None? {
        return Some(ErrorText(NotLoggedIn));
      }
      if insertFault.Some? {
        return insertFault;
      }
      bids := bids + [Bid(itemId, user.value, amount)];
      error := None;
    }
  }

  /**
    The single row of `select ... where item_id = itemId order by amount desc
    limit 1`: none when the item has no bids, otherwise a bid of that item
    whose amount no other bid of the item exceeds. The store leaves the order
    among equal amounts open; this picks the earliest in ledger order.
   */
  function TopBid(bids: seq<Bid>, itemId: string): (top: Option<Bid>)
    ensures top.None? <==> forall i :: 0 <= i < |bids| ==> bids[i].itemId != itemId
    ensures top.Some? ==> top.value in bids && top.value.itemId == itemId
    ensures top.Some? ==>
              forall i :: 0 <= i < |bids| && bids[i].itemId == itemId ==> bids[i].amount <= top.value.amount
  {
    if bids == [] then None
    else
      var rest := TopBid(bids[1..], itemId);
      assert forall i :: 1 <= i < |bids| ==> bids[i] == bids[1..][i - 1];
      if bids[0].itemId == itemId && (rest.None? || rest.value.amount <= bids[0].amount) then Some(bids[0])
      else rest
  }

  /** An appended bid of the item that beats the old top bid becomes the new top bid. */
  lemma TopBidAfterHigherBid(bids: seq<Bid>, b: Bid)
    requires TopBid(bids, b.itemId).None? || TopBid(bids, b.itemId).value.amount < b.amount
    ensures TopBid(bids + [b], b.itemId) == Some(b)
  {
    var all := bids + [b];
    var top := TopBid(all, b.itemId);
    assert all[|bids|] == b;
    assert top.value.amount >= b.amount;
  }

  /** A bid for another item does not change an item's top bid amount. */
  lemma TopBidOtherItem(bids: seq<Bid>, b: Bid, itemId: string)
    requires b.itemId != itemId
    ensures TopBid(bids + [b], itemId).None? <==> TopBid(bids, itemId).None?
    ensures TopBid(bids, itemId).Some? ==>
              TopBid(bids + [b], itemId).value.amount == TopBid(bids, itemId).value.amount
  {
    var all := bids + [b];
    assert forall i :: 0 <= i < |bids| ==> all[i] == bids[i];
    var t1 := TopBid(bids, itemId);
    var t2 := TopBid(all, itemId);
    if t1.Some? {
      var j :| 0 <= j < |bids| && bids[j] == t1.value;
      assert all[j] == t1.value;
      var k :| 0 <= k < |all| && all[k] == t2.value;
      assert k < |bids|;
    }
  }
}
