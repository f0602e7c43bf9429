# HeelBid auction client logic in Dafny

HeelBid is a live-auction web application. Sellers list timed auctions and
buyers bid on them. This project models the client-side auction logic of two
of its UI components and proves properties about that logic.

- **The bid modal** (`AuctionDetailModal`):
  - the once-per-second countdown to the auction's end and its `mm:ss` display;
  - the guard in front of `placeBid`;
  - the highest-bid figure, merged from realtime new-bid events and refreshed from the store;
  - the winner shown once the countdown reaches zero.
- **The creation form** (`CreateForm`):
  - its validation schema;
  - combining the picked date with the typed `HH:MM` start time;
  - the initial lifecycle state;
  - the upload → insert → redirect sequence.

Modules, one per component or collaborator:

- `Wrappers`: the `Option` datatype.
- `Text`: decimal rendering and parsing, `padStart` and `split`.
- `Auctions`: the `auction_item` records and the lifecycle state.
- `BidStore`: the `bid` ledger. `placeBid` is an auth-guarded append to it. The "highest bid" query is a function over it.
- `AuctionDetail`: the bid modal. Its pure parts are functions. Its React state is a class `BidModal`, whose fields are updated by its methods `Tick`, `OnNewBid`, `HandlePlaceBid`, `SetOpen` and `FetchHighestBid`.
- `CreateForm`: the schema and the parsing, as functions. A JavaScript `Date` is a class `JsDate` with `SetHours`/`SetMinutes`. The submit pipeline is a method over an image bucket and an `auction_item` table.

Representation:

- Time is integer milliseconds. A `Date` is its local-time value.
- Money is an integer.
- The bid box holds an already-parsed value: blank, unparsable, or a number.

Everything outside the browser is a parameter:

- the clock readings;
- the signed-in user;
- the ledger contents a query sees;
- the profile display names;
- whether an upload or insert fails.

What the code does not do, and the model therefore does not either:

- Nothing moves an auction out of "future" or "ongoing" after it is created;
  the ongoing-auctions page only checks the session.
- Neither `placeBid` nor the modal compares the time with the auction's end:
  the only thing that keeps bids out after the end is that the bid box is
  hidden once `timeLeft` reaches 0 (so `HandlePlaceBid` requires
  `timeLeft > 0`).
- Nothing outside the guard checks the amount: `placeBid` appends whatever
  it is given.
- No outbid notification is sent, and realtime rows are not deduplicated.
- `fetchHighestBid` sets the figure to the top stored bid rather than taking
  a maximum, so a refresh can lower it (for example below the starting
  price when the only stored bids are lower); `BidModal.FetchHighestBid`
  states this as written.

## Model

| member | source | states |
|---|---|---|
| `Text.PadStart` | web/components/ui/auction-detail.tsx:120-123 | `padStart(width, "0")` gives length max(width, original length). The original string is the suffix and every added character is the fill. |
| `Text.Split` | web/components/ui/create-form.tsx:58 | `split(sep)` gives at least one part. No part contains the separator, and joining the parts with the separator gives back the input. |
| `Text.NatToString` | web/components/ui/auction-detail.tsx:121-123 | `toString` of a natural number is a non-empty digit string with no leading zero (except "0" itself), has one digit below 10 and at least two from 10. With `ParseNatToString` it reads back to the number. |
| `Text.ParseNatToString` | web/components/ui/create-form.tsx:58 | Reading a rendered number back with `Number` gives the number. |
| `Text.IntToString` | web/components/ui/auction-detail.tsx:121-123 | `toString` of an integer is the natural rendering for a non-negative integer, and '-' followed by the rendering of its magnitude otherwise. |
| `Text.ParseDigits` | web/components/ui/create-form.tsx:58 | `Number` on a digit string is below 10^length, and its units digit is the last character's value. |
| `Text.Utf16Length` | web/components/ui/create-form.tsx:27-28 | A JavaScript string's `length` is between the character count and twice it. It equals the character count exactly when no character lies above the Basic Multilingual Plane. |
| `AuctionDetail.Remaining` | web/components/ui/auction-detail.tsx:75 | Remaining seconds are never negative. They are 0 exactly when less than a second is left. Otherwise they are the floor of the milliseconds left divided by 1000: `r*1000 <= end-now < (r+1)*1000`. |
| `AuctionDetail.RemainingMonotone` | web/components/ui/auction-detail.tsx:73-76 | As the clock advances, the remaining seconds never increase. |
| `AuctionDetail.RemainingStep` | web/components/ui/auction-detail.tsx:73-76 | One second later the countdown is one less, stopping at 0. |
| `AuctionDetail.RemainingAtStart` | web/components/ui/auction-detail.tsx:70-75 | With end = start + duration×60×1000 ms, the countdown at the start instant is max(0, duration×60). For a non-negative duration that equals the constructor's initial `timeLeft` of duration×60. For a negative duration the constructor shows duration×60 < 0 until the first tick sets it to 0. |
| `AuctionDetail.EndTime` | web/components/ui/auction-detail.tsx:70-71 | The end is a whole number of minutes after the start, and not before the start exactly when the duration is non-negative. |
| `AuctionDetail.EndOf` | web/components/ui/auction-detail.tsx:70-71 | An auction of positive duration ends at least a minute after its start; one of zero or negative duration ends no later than its start. |
| `AuctionDetail.JsRemainder` | web/components/ui/auction-detail.tsx:123 | JavaScript `%`: equal to the mathematical remainder for a non-negative dividend; for a negative one it is non-positive and its magnitude is the remainder of the magnitude. |
| `AuctionDetail.FormatTime` | web/components/ui/auction-detail.tsx:119-125 | For s ≥ 0 the text has length max(2, digits of s div 60) + 3, with ':' third from the end, so the seconds field always takes exactly two places. |
| `AuctionDetail.FormatTimeFields` | web/components/ui/auction-detail.tsx:119-125 | For s ≥ 0, `formatTime(s)` splits at ':' into exactly two digit fields. The minutes field is worth s div 60 and has length max(2, its digit count), so it is never cut short, even at 100 minutes or more. The seconds field has exactly two digits and is worth s mod 60 < 60. |
| `AuctionDetail.FormatTimeRoundTrip` | web/components/ui/auction-detail.tsx:119-125 | Reading the two fields back gives minutes×60 + seconds = s. |
| `AuctionDetail.CheckBid` | web/components/ui/auction-detail.tsx:94-102 | The guard proceeds iff the box holds a number above the highest bid, and then with that number. It rejects with "Please enter a valid number." exactly for a blank or unparsable box. It rejects with "Bid must be higher than current highest." exactly for a number ≤ the highest bid. |
| `AuctionDetail.ErrorStatus` | web/components/ui/auction-detail.tsx:111-112 | A string error is shown as itself, an error object as its message. |
| `AuctionDetail.MergeHighest` | web/components/ui/auction-detail.tsx:36-38 | The new-bid callback's figure is at least the old figure and at least the new amount, and is one of the two. |
| `AuctionDetail.MergeAll` | web/components/ui/auction-detail.tsx:30-38 | After any run of events starting from the starting price, the figure is at least the price and every amount, and is the price or one of the amounts. |
| `AuctionDetail.FetchedHighest` | web/components/ui/auction-detail.tsx:57-58 | After a refresh the figure is the top bid's amount when the item has a bid, and is unchanged otherwise. |
| `AuctionDetail.WinnerName` | web/components/ui/auction-detail.tsx:60 | The winner is the bidder's display name when present and non-empty, otherwise the bidder id. |
| `AuctionDetail.EndedMessage` | web/components/ui/auction-detail.tsx:170 | The ended notice reads "Auction ended. Winner: w" for a known non-empty winner w, else "Auction ended. No bids placed.". |
| `AuctionDetail.Render` | web/components/ui/auction-detail.tsx:147-172 | The bid box is shown iff `timeLeft > 0`; otherwise the ended notice is shown. Under the bid box the status is shown iff it is set and non-empty, and then as it is. |
| `AuctionDetail.EndedStaysEnded` | web/components/ui/auction-detail.tsx:73-81 | Once the countdown has been 0, every later tick still renders the ended notice. |
| `AuctionDetail.BidModal.constructor` | web/components/ui/auction-detail.tsx:26-32 | Initial state: blank box, no status, no winner, `timeLeft` = duration×60, figure = starting price, not ended, timer off. |
| `AuctionDetail.BidModal.FetchHighestBid` | web/components/ui/auction-detail.tsx:40-63 | With a top bid for the item, the figure becomes its amount and, when asked, the winner its name. With no bid, nothing changes. |
| `AuctionDetail.BidModal.SetOpen` | web/components/ui/auction-detail.tsx:65-85 | Opening refreshes the figure and starts the interval. Closing stops it. An unchanged `open` does nothing. |
| `AuctionDetail.BidModal.Tick` | web/components/ui/auction-detail.tsx:73-91 | `timeLeft` becomes the remaining seconds. The timer stops and `hasEnded` is set exactly when that is 0. `hasEnded` is never reset. The first tick that ends the auction refreshes figure and winner. The invariant "ended ⇒ `timeLeft` is 0" is kept. |
| `AuctionDetail.BidModal.OnNewBid` | web/components/ui/auction-detail.tsx:36-38 | The figure becomes `MergeHighest(old figure, amount)`, so it never decreases. |
| `AuctionDetail.BidModal.SetBidAmount` | web/components/ui/auction-detail.tsx:153 | Typing replaces the box's content and nothing else. |
| `AuctionDetail.BidModal.HandlePlaceBid` | web/components/ui/auction-detail.tsx:93-117 | A rejected guard sets its message, calls nothing and changes nothing else. `placeBid` is called only when the guard proceeds, with that amount. On success the ledger gains exactly the new bid, the status is "Bid placed successfully" and the box is cleared. If the refresh query then succeeds, the figure is the item's top bid and is at least the bid. If the refresh fails, the figure stays at its old value, below the bid just placed. On failure the ledger is unchanged, the status is the error text and the box is kept. |
| `BidStore.Ledger.PlaceBid` | web/utils/supabase/placeBid.tsx:3-21 | With no user: "You must be logged in to bid." and no write. Otherwise the store's error and no write, or success with exactly `{item_id, bidder_id, amount}` appended. There is no amount check. |
| `BidStore.TopBid` | web/components/ui/auction-detail.tsx:49-55 | The "order by amount desc limit 1" row is none iff the item has no bids. Otherwise it is a bid of that item in the ledger whose amount no bid of the item exceeds. |
| `BidStore.TopBidAfterHigherBid` | web/components/ui/auction-detail.tsx:105-107 | A newly appended bid above the item's previous top bid is the new top bid. |
| `BidStore.TopBidOtherItem` | web/components/ui/auction-detail.tsx:52 | A bid on another item does not change an item's top-bid amount. |
| `CreateForm.StartTimeMatches` | web/components/ui/create-form.tsx:31 | An accepted start time has five characters: two digits, ':', two digits. With `ClockAccepted` and `StartTimeRoundTrip` the pattern accepts exactly the two-digit renderings of hours 0–23 and minutes 0–59. |
| `CreateForm.SchemaAccepts` | web/components/ui/create-form.tsx:26-34 | The schema counts name and description length in UTF-16 code units, as `z.string().min(2)` does. Two characters always suffice; a single character above the Basic Multilingual Plane also suffices; an empty string never passes. Price and duration must not be NaN, a valid date must be picked, and the start time must match the pattern. Any such input is accepted, and every accepted input has all of these. |
| `CreateForm.ParseStartTime` | web/components/ui/create-form.tsx:58 | For an accepted start time, `split(":").map(Number)` gives an hour in [0,23] and a minute in [0,59]. Each is the value of its two digits. |
| `CreateForm.StartTimeRoundTrip` | web/components/ui/create-form.tsx:58 | Re-rendering the parsed hour and minute with two-digit padding gives back the accepted string. |
| `CreateForm.ClockAccepted` | web/components/ui/create-form.tsx:31 | Every `HH:MM` with HH in 00–23 and MM in 00–59 is accepted and parses to its hour and minute. With `StartTimeRoundTrip`, the pattern accepts exactly these strings. |
| `CreateForm.WithHours` | web/components/ui/create-form.tsx:60 | `setHours(h)` moves the instant by h minus the current hour, in hours (overflow carries into the day). For h in [0,23] it keeps the day and everything below the hour, and sets the hour to h. |
| `CreateForm.WithMinutes` | web/components/ui/create-form.tsx:61 | `setMinutes(m)` moves the instant by m minus the current minute, in minutes. For m in [0,59] it keeps the hour and everything below the minute, and sets the minute to m. |
| `CreateForm.JsDate.SetHours` | web/components/ui/create-form.tsx:60 | The date's value becomes `WithHours` of its old value. |
| `CreateForm.JsDate.SetMinutes` | web/components/ui/create-form.tsx:61 | The date's value becomes `WithMinutes` of its old value. |
| `CreateForm.CombineStartFields` | web/components/ui/create-form.tsx:58-61 | The combined start keeps the picked calendar day and its seconds and milliseconds, and has exactly the parsed hour and minute. |
| `CreateForm.CombineStart` | web/components/ui/create-form.tsx:58-61 | Whatever hour and minute are given, even out of range, the start keeps the picked date's seconds and milliseconds. |
| `CreateForm.InitialState` | web/components/ui/create-form.tsx:63-64 | The initial state is "future" iff start > now, "ongoing" iff start ≤ now (start = now included), and never "completed". |
| `CreateForm.RedirectTarget` | web/components/ui/create-form.tsx:91 | The redirect is `/auctions/future` iff the state is future, `/auctions/ongoing` iff ongoing, and `/auctions/completed` iff completed. |
| `CreateForm.FilePath` | web/components/ui/create-form.tsx:55 | The path ends in '-' followed by the file name, and for a non-negative clock everything before that is the clock reading in decimal. |
| `CreateForm.FilePathDistinct` | web/components/ui/create-form.tsx:55 | The same file name uploaded at two different clock readings gets two different paths. |
| `CreateForm.Toast` | web/components/ui/create-form.tsx:66-96 | A schema rejection yields no toast. Each other outcome yields exactly one, and each text belongs to exactly one outcome: "Something went wrong" iff the handler threw, "Upload failed" iff the upload failed, "Failed to create auction" iff the insert failed, "Auction created successfully" iff the auction was created. |
| `CreateForm.ImageBucket.Upload` | web/components/ui/create-form.tsx:66-68 | A successful upload stores the file under the path; a failed one changes nothing. |
| `CreateForm.AuctionTable.Insert` | web/components/ui/create-form.tsx:74-85 | A successful insert appends exactly the row; a failed one changes nothing. |
| `CreateForm.OnSubmit` | web/components/ui/create-form.tsx:51-97 | The new bucket, table and outcome satisfy `SubmitEffect`, case by case. No image: it throws before any write. A failed upload: no row and no redirect. After a successful upload the file is stored under `<clock>-<filename>`; then a failed insert adds no row and does not redirect. A successful insert appends exactly one row carrying the seller id, the combined start, the computed state and that path, with name, description, price and duration copied, and redirects to `/auctions/<state>`. |
| `CreateForm.SubmitEffectRows` | web/components/ui/create-form.tsx:66-96 | Every run of `onSubmit` raises a toast. It adds a row, and then exactly one after the old rows, precisely when it creates the auction; otherwise the table is untouched. The bucket changes only after a successful upload of a present image. |
| `CreateForm.HandleSubmit` | web/components/ui/create-form.tsx:26-34 | Input the schema rejects never reaches `onSubmit` and changes nothing. Accepted input has exactly the effect of `onSubmit` on the schema's output, in every outcome. A row is added only for accepted input that gets created. |

## Left out

- Rendering, JSX, pages, the sidebar, the auction card, theming, the login and signup forms, and the session checks of `getServerSideProps`: presentation or authentication delegated to the hosted backend.
- Realtime subscriptions (`useBidUpdates`, `bidListener`, `notificationListener`, `useViewerCount`): transport and presence plumbing. Only their effect is modelled, a new-bid event given to `OnNewBid`. The callback does not look at the bid's item; the subscription filter is trusted to deliver only that item's bids.
- `sendNotification`: never called by the modelled code.
- The lifecycle sweeper and an end-time check on bids: neither exists in the code.
- Asynchrony: each awaited store call completes before the next step. Interleavings are not modelled: a realtime event arriving between `placeBid` and the refresh, a tick during a pending submit, or two bidders racing on the same highest-bid figure. The `loading` flag, which only disables the button during a submit, is therefore not modelled.
- Store failures of the highest-bid query: a failed query leaves the figure and the winner unchanged, exactly as an empty result does. `Tick` and `SetOpen` express it through their ledger-contents argument; `HandlePlaceBid` has an explicit `refreshFails` flag. Exceptions thrown by the upload or insert calls (rather than returned as errors) are not modelled.
- The colour of the status line (green when it contains "success") is presentation and is not modelled.
- `Number()`/`isNaN` on arbitrary text: the bid box holds an already-parsed value, and the creation form's price and duration hold what `Number` made of the field (NaN as `None`). Fractional amounts, fractional durations and floating-point rounding in the countdown division are not modelled.
- Time zones, daylight saving time and `toISOString` formatting: a `Date` is its local-time millisecond value, and the stored start time is that value.
- `Number.prototype.toString` exponent notation for very large numbers: integers always render in plain decimal.
- `BidModal.Tick`: requires that successive ticks read a non-decreasing clock. This is needed for the invariant that an ended modal shows `timeLeft` = 0. A system clock set backwards could show the bid box again after the end, and the model does not capture that.
- `BidStore.TopBid`: the store leaves the order among equal top amounts open. The model picks the earliest such bid in ledger order and proves only that the result is a maximal bid of the item.
- `AuctionDetail.FormatTimeFields`: proved for non-negative counts only. `FormatTime` itself follows JavaScript for negative counts too (floor division, remainder with the sign of the dividend); a negative count arises only from a negative duration.
- `CreateForm.SchemaAccepts`: `z.coerce.number()` in this zod version also accepts ±Infinity, and `Number` can give fractions; price and duration are integers here, so neither is represented. `z.date()` rejecting an Invalid Date is represented only as "no date" (`None`).
- Mounting an already-open modal: modelled as the constructor followed by `SetOpen(true, …)`.
