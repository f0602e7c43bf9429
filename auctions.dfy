/**
  The records the two components read and write. Times are integer
  milliseconds, durations whole minutes, money whole units of one currency.
 */
module Auctions {

  const MsPerMinute: int := 60000

  /** The `state` column of `auction_item`; its text is what the row stores. */
  datatype AuctionState = Future | Ongoing | Completed {
    function Name(): string {
      match this
      case Future => "future"
      case Ongoing => "ongoing"
      case Completed => "completed"
    }
  }

  /** A row of `auction_item` as the detail modal receives it. */
  datatype AuctionItem = AuctionItem(
    id: string,
    sellerId: string,
    name: string,
    description: string,
    price: int,
    startTime: int,
    duration: int,
    state: AuctionState,
    imageUrl: string)

  /** The columns the creation form inserts; the store assigns the id. */
  datatype NewAuction = NewAuction(
    sellerId: string,
    name: string,
    description: string,
    price: int,
    startTime: int,
    duration: int,
    state: AuctionState,
    imageUrl: string)
}
