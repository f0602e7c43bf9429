/**
  The bid modal of one auction (`AuctionDetailModal`): a once-per-second
  countdown to the auction's end, a bid box guarded against empty, unparsable
  and too-low amounts, a highest-bid figure merged from realtime new-bid
  events and refreshed from the store, and, once the countdown reaches zero,
  the winner.
 */
module AuctionDetail {
  import opened Wrappers
  import opened Text
  import opened Auctions
  import opened BidStore

  // ---------------------------------------------------------------- countdown

  const MsPerSecond: int := 1000

  /**
    When an auction that starts at `startMs` and lasts `durationMin` minutes
    ends: `start_time + duration * 60 * 1000`. It is a whole number of
    minutes after the start, and not before the start exactly when the
    duration is not negative.
   */
  function EndTime(startMs: int, durationMin: int): (endMs: int)
    ensures (endMs - startMs) % MsPerMinute == 0
    ensures endMs >= startMs <==> durationMin >= 0
  {
    startMs + durationMin * MsPerMinute
  }

  /** The end of a listed auction; an auction of positive duration ends after it starts. */
  function EndOf(auction: AuctionItem): (endMs: int)
    ensures auction.duration > 0 ==> endMs >= auction.startTime + MsPerMinute
    ensures auction.duration <= 0 ==> endMs <= auction.startTime
  {
    EndTime(auction.startTime, auction.duration)
  }

  /**
    Whole seconds left at `nowMs` before `endMs`, never negative:
    `max(0, floor((end - now) / 1000))`.
   */
  function Remaining(endMs: int, nowMs: int): (secs: nat)
    ensures endMs - nowMs >= MsPerSecond ==>
              secs > 0 && secs * MsPerSecond <= endMs - nowMs < (secs + 1) * MsPerSecond
    ensures secs == 0 <==> endMs - nowMs < MsPerSecond
  {
    var q := (endMs - nowMs) / MsPerSecond;
    if q > 0 then q else 0
  }

  /** The countdown never goes up as the clock advances. */
  lemma RemainingMonotone(endMs: int, now1: int, now2: int)
    requires now1 <= now2
    ensures Remaining(endMs, now2) <= Remaining(endMs, now1)
  {
    var r1, r2 := Remaining(endMs, now1), Remaining(endMs, now2);
    if r2 > 0 {
      assert r2 * MsPerSecond <= endMs - now2 <= endMs - now1;
      assert r1 * MsPerSecond > endMs - now1 - MsPerSecond;
    }
  }

  /** One second later the countdown shows one second less, stopping at zero. */
  lemma RemainingStep(endMs: int, nowMs: int)
    ensures Remaining(endMs, nowMs + MsPerSecond) == Max(0, Remaining(endMs, nowMs) - 1)
  {
    var d := endMs - nowMs;
    assert (d - MsPerSecond) / MsPerSecond == d / MsPerSecond - 1;
  }

  /**
    At the start instant the countdown shows the full duration, or zero for a
    negative duration; for a non-negative duration this is the modal's
    initial `timeLeft` of `duration * 60`.
   */
  lemma RemainingAtStart(startMs: int, durationMin: int)
    ensures Remaining(EndTime(startMs, durationMin), startMs) == Max(0, durationMin * 60)
  {
    var d := durationMin * MsPerMinute;
    assert d == (durationMin * 60) * MsPerSecond;
    assert d / MsPerSecond == durationMin * 60;
  }

  // ----------------------------------------------------------------- mm:ss

  /** JavaScript's `a % b` for `b > 0`: the remainder takes the sign of `a`. */
  function JsRemainder(a: int, b: int): (r: int)
    requires b > 0
    ensures a >= 0 ==> r == a % b
    ensures a < 0 ==> r <= 0 && -r == (-a) % b
  {
    if a >= 0 then a % b else -((-a) % b)
  }

  /**
    `formatTime(seconds)`: whole minutes, ':', remaining seconds, each
    zero-padded to two places. For a non-negative count the seconds field
    always takes exactly two places and the minutes field at least two.
   */
  function FormatTime(seconds: int): (r: string)
    ensures seconds >= 0 ==>
              && |r| == Max(2, |NatToString(seconds / 60)|) + 3
              && r[|r| - 3] == ':'
  {
    var m := IntToString(seconds / 60);
    var s := IntToString(JsRemainder(seconds, 60));
    assert seconds >= 0 ==> |s| <= 2 by {
      if seconds >= 0 && seconds % 60 >= 10 {
        assert NatToString(seconds % 60) == NatToString(seconds % 60 / 10) + [DigitChar(seconds % 60 % 10)];
      }
    }
    PadStart(m, 2, '0') + ":" + PadStart(s, 2, '0')
  }

  /**
    For a non-negative count, `formatTime` gives minutes and seconds fields
    around one ':': the minutes field is the decimal minute count padded to at
    least two digits and never cut short, the seconds field exactly two digits
    worth `seconds % 60`.
   */
  lemma FormatTimeFields(seconds: nat)
    ensures var parts := Split(FormatTime(seconds), ':');
      && |parts| == 2
      && AllDigits(parts[0]) && AllDigits(parts[1])
      && |parts[0]| == Max(2, |NatToString(seconds / 60)|)
      && |parts[1]| == 2
      && ParseDigits(parts[0]) == seconds / 60
      && ParseDigits(parts[1]) == seconds % 60 < 60
      && (seconds / 60 >= 10 ==> parts[0] == NatToString(seconds / 60))
  {
    var q, r := seconds / 60, seconds % 60;
    var mm := PadStart(NatToString(q), 2, '0');
    var ss := PadStart(NatToString(r), 2, '0');
    assert FormatTime(seconds) == mm + [':'] + ss;
    PadStartZerosValue(NatToString(q), 2);
    PadStartZerosValue(NatToString(r), 2);
    ParseNatToString(q);
    ParseNatToString(r);
    assert ':' !in mm by {
      forall i | 0 <= i < |mm| ensures mm[i] != ':' { assert IsDigit(mm[i]); }
    }
    assert ':' !in ss by {
      forall i | 0 <= i < |ss| ensures ss[i] != ':' { assert IsDigit(ss[i]); }
    }
    SplitPair(mm, ss, ':');
  }

  /** Reading minutes and seconds back out of `formatTime(s)` gives `s` again. */
  lemma FormatTimeRoundTrip(seconds: nat)
    ensures var parts := Split(FormatTime(seconds), ':');
      |parts| == 2 && AllDigits(parts[0]) && AllDigits(parts[1])
      && ParseDigits(parts[0]) * 60 + ParseDigits(parts[1]) == seconds
  {
    FormatTimeFields(seconds);
  }

  // --------------------------------------------------------------- bid guard

  /** The bid box: nothing typed, text that is not a number, or a number. */
  datatype BidInput = Blank | Unparsable | Parsed(amount: int)

  const InvalidNumber: string := "Please enter a valid number."
  const TooLow: string := "Bid must be higher than current highest."
  const BidPlaced: string := "Bid placed successfully"

  /** What the guard of `handlePlaceBid` decides before any store call. */
  datatype Guard = Reject(message: string) | Proceed(amount: int)

  /**
    The guard: a blank or unparsable box is rejected as not a number, an
    amount not above the highest bid as too low; only a higher amount goes on
    to `placeBid`.
   */
  function CheckBid(input: BidInput, highestBid: int): (g: Guard)
    ensures g.Proceed? <==> input.Parsed? && input.amount > highestBid
    ensures g.Proceed? ==> g.amount == input.amount
    ensures g == Reject(InvalidNumber) <==> !input.Parsed?
    ensures g == Reject(TooLow) <==> input.Parsed? && input.amount <= highestBid
  {
    match input
    case Blank => Reject(InvalidNumber)
    case Unparsable => Reject(InvalidNumber)
    case Parsed(a) => if a <= highestBid then Reject(TooLow) else Proceed(a)
  }

  /** The text shown for an error from `placeBid`: the string itself, or the object's message. */
  function ErrorStatus(e: StoreError): (text: string)
    ensures e.ErrorText? ==> text == e.text
    ensures e.ErrorObject? ==> text == e.message
  {
    match e
    case ErrorText(t) => t
    case ErrorObject(m) => m
  }

  // ------------------------------------------------------ highest-bid figure

  /** The realtime new-bid callback: keep the larger of the shown figure and the new amount. */
  function MergeHighest(prev: int, amount: int): (r: int)
    ensures r >= prev && r >= amount
    ensures r == prev || r == amount
  {
    if amount > prev then amount else prev
  }

  /** The figure after a run of new-bid events, starting from `start`. */
  function MergeAll(start: int, amounts: seq<int>): (r: int)
    ensures r >= start
    ensures forall i :: 0 <= i < |amounts| ==> r >= amounts[i]
    ensures r == start || r in amounts
    decreases amounts
  {
    if amounts == [] then start
    else
      var r := MergeAll(MergeHighest(start, amounts[0]), amounts[1..]);
      assert forall i :: 1 <= i < |amounts| ==> amounts[i] == amounts[1..][i - 1];
      r
  }

  /** What the modal shows as the highest bid after `fetchHighestBid` found `top`. */
  function FetchedHighest(current: int, top: Option<Bid>): (r: int)
    ensures top.Some? ==> r == top.value.amount
    ensures top.None? ==> r == current
  {
    if top.Some? then top.value.amount else current
  }

  // ------------------------------------------------------------------ winner

  /** `profiles?.display_name || bidder_id`: the display name unless absent or empty. */
  function WinnerName(top: Bid, displayNames: map<string, string>): (w: string)
    ensures top.bidderId in displayNames && displayNames[top.bidderId] != "" ==>
              w == displayNames[top.bidderId]
    ensures !(top.bidderId in displayNames && displayNames[top.bidderId] != "") ==>
              w == top.bidderId
  {
    if top.bidderId in displayNames && displayNames[top.bidderId] != "" then displayNames[top.bidderId]
    else top.bidderId
  }

  /** What the modal shows: the bid box with the status line shown under it, if any, or the ended notice. */
  datatype DetailView = BidForm(status: Option<string>) | EndedNotice(message: string)

  /** The ended notice: the winner when one is known and non-empty, otherwise that there were no bids. */
  function EndedMessage(winner: Option<string>): (msg: string)
    ensures winner.Some? && winner.value != "" ==> msg == "Auction ended. Winner: " + winner.value
    ensures winner.None? || winner.value == "" ==> msg == "Auction ended. No bids placed."
  {
    "Auction ended. " + (if winner.Some? && winner.value != "" then "Winner: " + winner.value else "No bids placed.")
  }

  /**
    The bid box while time is left, the ended notice otherwise. Under the bid
    box the status is shown only when it is set and not empty (`status && …`),
    so an empty error message shows nothing.
   */
  function Render(timeLeft: int, status: Option<string>, winner: Option<string>): (v: DetailView)
    ensures v.BidForm? <==> timeLeft > 0
    ensures v.BidForm? ==> (v.status.Some? <==> status.Some? && status.value != "")
    ensures v.BidForm? && v.status.Some? ==> v.status == status
    ensures v.EndedNotice? ==> v.message == EndedMessage(winner)
  {
    if timeLeft > 0 then BidForm(if status.Some? && status.value != "" then status else None)
    else EndedNotice(EndedMessage(winner))
  }

  // ------------------------------------------------------------ modal state

  /**
    The modal's state. `open` is the parent's prop, `ticking` whether the
    one-second interval is installed, `lastTick` the clock of the latest tick.
   */
  class BidModal {
    const auction: AuctionItem
    var bidAmount: BidInput
    var status: Option<string>
    var timeLeft: int
    var highestBid: int
    var winner: Option<string>
    var hasEnded: bool
    var open: bool
    var ticking: bool
    ghost var lastTick: Option<int>

    /** The interval runs only while open; once ended, the countdown has hit zero for good. */
    ghost predicate Valid()
      reads this
    {
      && (ticking ==> open)
      && (hasEnded ==> lastTick.Some? && Remaining(EndOf(auction), lastTick.value) == 0 && timeLeft == 0)
    }

    /** Mounting, closed: the state hooks' initial values. */
    constructor (item: AuctionItem)
      ensures Valid()
      ensures auction == item
      ensures bidAmount == Blank && status == None && winner == None
      ensures timeLeft == item.duration * 60 && highestBid == item.price
      ensures !hasEnded && !open && !ticking && lastTick == None
    {
      auction := item;
      bidAmount := Blank;
      status := None;
      timeLeft := item.duration * 60;
      highestBid := item.price;
      winner := None;
      hasEnded := false;
      open := false;
      ticking := false;
      lastTick := None;
    }

    /**
      `fetchHighestBid(updateWinner)` against the ledger contents `bids`: when
      the item has a bid, the figure becomes the top bid's amount (even if that
      is lower than the figure shown) and, if asked, the winner its name; with
      no bid nothing changes.
     */
    method FetchHighestBid(bids: seq<Bid>, displayNames: map<string, string>, updateWinner: bool)
      requires Valid()
      modifies this`highestBid, this`winner
      ensures Valid()
      ensures highestBid == FetchedHighest(old(highestBid), TopBid(bids, auction.id))
      ensures winner == (if updateWinner && TopBid(bids, auction.id).Some?
                         then Some(WinnerName(TopBid(bids, auction.id).value, displayNames))
                         else old(winner))
    {
      var top := TopBid(bids, auction.id);
      if top.Some? {
        highestBid := top.value.amount;
        if updateWinner {
          winner := Some(WinnerName(top.value, displayNames));
        }
      }
    }

    /**
      The effect on `open`: on opening, refresh the figure and install the
      interval; on closing, remove it; no change, no effect.
     */
    method SetOpen(isOpen: bool, bids: seq<Bid>, displayNames: map<string, string>)
      requires Valid()
      modifies this`open, this`ticking, this`highestBid, this`winner
      ensures Valid()
      ensures open == isOpen && winner == old(winner)
      ensures isOpen == old(open) ==> ticking == old(ticking) && highestBid == old(highestBid)
      ensures isOpen && !old(open) ==>
                ticking && highestBid == FetchedHighest(old(highestBid), TopBid(bids, auction.id))
      ensures !isOpen && old(open) ==> !ticking && highestBid == old(highestBid)
    {
      if isOpen == open {
        return;
      }
      open := isOpen;
      ticking := false;
      if isOpen {
        FetchHighestBid(bids, displayNames, false);
        ticking := true;
      }
    }

    /**
      One firing of the interval at clock `nowMs`: `timeLeft` becomes the
      whole seconds left; when that is zero the interval is cleared and
      `hasEnded` set, and if that newly ends the auction the effect on
      `hasEnded` reads the winner from `bids`.
     */
    method Tick(nowMs: int, bids: seq<Bid>, displayNames: map<string, string>)
      requires Valid() && ticking
      requires lastTick.None? || lastTick.value <= nowMs
      modifies this`timeLeft, this`ticking, this`hasEnded, this`highestBid, this`winner, this`lastTick
      ensures Valid()
      ensures timeLeft == Remaining(EndOf(auction), nowMs)
      ensures ticking <==> timeLeft > 0
      ensures hasEnded <==> old(hasEnded) || timeLeft == 0
      ensures lastTick == Some(nowMs)
      ensures !old(hasEnded) && hasEnded ==>
                && highestBid == FetchedHighest(old(highestBid), TopBid(bids, auction.id))
                && winner == (if TopBid(bids, auction.id).Some?
                              then Some(WinnerName(TopBid(bids, auction.id).value, displayNames))
                              else old(winner))
      ensures !(!old(hasEnded) && hasEnded) ==> highestBid == old(highestBid) && winner == old(winner)
    {
      if hasEnded {
        RemainingMonotone(EndOf(auction), lastTick.value, nowMs);
      }
      var remaining := Remaining(EndOf(auction), nowMs);
      timeLeft := remaining;
      lastTick := Some(nowMs);
      if remaining == 0 {
        ticking := false;
        if !hasEnded {
          hasEnded := true;
          FetchHighestBid(bids, displayNames, true);
        }
      }
    }

    /** The realtime new-bid callback. */
    method OnNewBid(newBid: Bid)
      requires Valid()
      modifies this`highestBid
      ensures Valid()
      ensures highestBid == MergeHighest(old(highestBid), newBid.amount)
    {
      highestBid := MergeHighest(highestBid, newBid.amount);
    }

    /** Typing in the bid box. */
    method SetBidAmount(input: BidInput)
      requires Valid()
      modifies this`bidAmount
      ensures Valid() && bidAmount == input
    {
      bidAmount := input;
    }

    /**
      `handlePlaceBid`, reachable only from the bid form: the guard, then
      `placeBid`, then on success a refresh of the figure, a success status and
      a cleared box; on failure the error text and the box kept. The refresh
      query may itself fail (`refreshFails`); then, as for an empty result,
      the figure stays where it was, below the bid just placed.
     */
    method HandlePlaceBid(ledger: Ledger, user: Option<string>, insertFault: Option<StoreError>,
                          refreshFails: bool, displayNames: map<string, string>)
      requires Valid() && timeLeft > 0
      modifies this`status, this`bidAmount, this`highestBid, this`winner, ledger
      ensures Valid() && winner == old(winner)
      ensures CheckBid(old(bidAmount), old(highestBid)).Reject? ==>
                && status == Some(CheckBid(old(bidAmount), old(highestBid)).message)
                && ledger.bids == old(ledger.bids) && ledger.attempts == old(ledger.attempts)
                && bidAmount == old(bidAmount) && highestBid == old(highestBid)
      ensures CheckBid(old(bidAmount), old(highestBid)).Proceed? ==>
                ledger.attempts == old(ledger.attempts) + [(auction.id, old(bidAmount).amount)]
      ensures CheckBid(old(bidAmount), old(highestBid)).Proceed? && user.Some? && insertFault.None? ==>
                && ledger.bids == old(ledger.bids) + [Bid(auction.id, user.value, old(bidAmount).amount)]
                && status == Some(BidPlaced) && bidAmount == Blank
      ensures CheckBid(old(bidAmount), old(highestBid)).Proceed? && user.Some? && insertFault.None? && !refreshFails ==>
                && highestBid == FetchedHighest(old(highestBid), TopBid(ledger.bids, auction.id))
                && highestBid >= old(bidAmount).amount
      ensures CheckBid(old(bidAmount), old(highestBid)).Proceed? && user.Some? && insertFault.None? && refreshFails ==>
                highestBid == old(highestBid) < old(bidAmount).amount
      ensures CheckBid(old(bidAmount), old(highestBid)).Proceed? && !(user.Some? && insertFault.None?) ==>
                && ledger.bids == old(ledger.bids)
                && status == Some(ErrorStatus(if user.None? then ErrorText(NotLoggedIn) else insertFault.value))
                && bidAmount == old(bidAmount) && highestBid == old(highestBid)
    {
      var guard := CheckBid(bidAmount, highestBid);
      if guard.Reject? {
        status := Some(guard.message);
        return;
      }
      var error := ledger.PlaceBid(auction.id, user, guard.amount, insertFault);
      if error.None? {
        assert ledger.bids[|ledger.bids| - 1] == Bid(auction.id, user.value, guard.amount);
        FetchHighestBid(if refreshFails then [] else ledger.bids, displayNames, false);
      }
      if error.Some? {
        status := Some(ErrorStatus(error.value));
      } else {
        status := Some(BidPlaced);
        bidAmount := Blank;
      }
    }
  }

  /** A modal that has ended stays on the ended notice for every later tick. */
  lemma EndedStaysEnded(auction: AuctionItem, t1: int, t2: int)
    requires Remaining(EndOf(auction), t1) == 0 && t1 <= t2
    ensures Render(Remaining(EndOf(auction), t2), None, None).EndedNotice?
  {
    RemainingMonotone(EndOf(auction), t1, t2);
  }
}
