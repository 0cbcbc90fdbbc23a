# Auction house: bidding state machine and end-of-day bookkeeping

A Dafny model of the core of a small C++ auction house. Participants hold a cash
balance. Auctions track the current (highest) bid, the name of the winner, and
whether they are open. A bid on an open auction must be strictly above the current
bid and within the bidder's balance. An accepted bid is paid at once, in full, and
is never refunded, even when the bidder is later outbid. An auction house registers
up to ten participants and ten auctions in fixed arrays. It reports an end-of-day
summary with two parts:

- for each auction, the participants who can afford its current bid;
- for each closed auction, its winner, resolved by name to a participant.

Files and modules:

- `outcomes.dfy` (`Outcomes`): the three failures (`InsufficientBalance`,
  `InvalidBid`, `AuctionClosed`) and the `Outcome` / `Result` / `Option` types.
  They replace the source's exception classes.
- `participant.dfy` (`Participants`): the guarded deduction `Deduct` and the
  `Participant` class. Its `balance` field is changed in place by `DeductBalance`.
- `auction.dfy` (`Auctions`): the bidding state (`AuctionState`) and the meaning of
  one bid (`PlaceBidOn`) and of closing (`CloseOn`, `Announce`). The `Auction` class
  has methods proved to update its fields, and the bidder's balance, exactly as those
  functions say. The two auction subclasses become the `Kind` tag. `SampleBidding`
  is a scenario over the program's seeded sample data (John and Alice bidding on the
  laptop; the bids themselves are chosen in the scenario), using only the contracts.
- `bidding.dfy` (`Bidding`): a run is any sequence of bids and closings over one
  auction and all participants. Its lemmas hold over every run:
  - the current bid never decreases;
  - a closed auction is final;
  - the winner is the last accepted bidder;
  - accepted bids strictly increase;
  - each participant's balance falls by exactly their own accepted bids, so there are
    no refunds;
  - balances stay non-negative.
- `summary.dfy` (`Summary`): the selection rules of the end-of-day summary, as pure
  functions over the participants' accounts and the auctions' states, with lemmas
  that characterise them.
- `house.dfy` (`Houses`): the `AuctionHouse` class. Capacity-bounded registration
  goes into two arrays of length 10. The summary is computed by methods whose loops
  follow the source's nested loops. These are proved equal to the functions of
  `Summary`, applied to the house's participants and auctions as they are now.

Amounts are modelled as `int`. The source uses `double`; the rounding of its
subtraction `balance -= amount` is not modelled (see "## Left out").

## Model

| member | source | states |
|---|---|---|
| `Participants.Deduct` | main.cpp:50-55 | A deduction fails with InsufficientBalance exactly when the amount exceeds the balance. Otherwise the new balance plus the amount is the old balance, and the new balance is never negative. |
| `Participants.Participant.DeductBalance` | main.cpp:50-55 | Changes only `balance`. On success the balance is the one `Deduct` gives. On failure it returns that error and the balance is unchanged. |
| `Participants.Participant.constructor` | main.cpp:37-38 | Every field takes the given value. |
| `Participants.Participant.Blank` | main.cpp:40 | The default participant has empty strings and a zero balance. |
| `Auctions.PlaceBidOn` | main.cpp:82-97 | The checks run in order. A closed auction gives AuctionClosed. On an open one, an amount not above the current bid (equal included) gives InvalidBid. Otherwise an amount above the balance gives InsufficientBalance. Success happens exactly when all three pass: the current bid becomes the amount, the winner becomes the bidder's name, and the bidder pays what `Deduct` takes. |
| `Auctions.Opening` | main.cpp:75-76 | The state of a new auction: open, current bid equal to the starting bid, no winner. |
| `Auctions.CloseOn` | main.cpp:101-102 | The whole state change of closing: the auction becomes closed and nothing else changes (its properties are `Auctions.CloseFreezes`). |
| `Auctions.Announce` | main.cpp:103-107 | Closing reports "no winner" exactly when the winner is empty. Otherwise it names the winner. |
| `Auctions.AcceptedBidRaises` | main.cpp:87-97 | An accepted bid keeps the auction open and valid. It strictly raises the current bid, makes the bidder the winner, and leaves the bidder a non-negative balance exactly `amount` lower. |
| `Auctions.ClosedRefusesBids` | main.cpp:83-85 | A closed auction refuses every bid with AuctionClosed, whoever bids and whatever the amount. |
| `Auctions.CloseFreezes` | main.cpp:101-102 | Closing keeps the current bid, the winner and the starting bid. Closing twice equals closing once. Closing keeps the state valid. |
| `Auctions.Auction.constructor` | main.cpp:75-76 | A new auction is open, its current bid equals the starting bid, and it has no winner. |
| `Auctions.Auction.Blank` | main.cpp:78 | The default auction is open, with an empty title, starting and current bid 0, and no winner. |
| `Auctions.Auction.PlaceBid` | main.cpp:82-99 | Only the auction's current bid and winner and the bidder's balance may change. On success they become what `PlaceBidOn` gives. On each failure the method returns that error and nothing changes. No other participant is touched. |
| `Auctions.Auction.CloseAuction` | main.cpp:101-108 | The auction becomes closed, with current bid and winner unchanged. The report is the winner, or "no winner" when the winner is empty. |
| `Bidding.Step` | main.cpp:82-102 | One operation on the world: a bid goes through `PlaceBidOn` and, when accepted, updates the auction and only the bidder's balance; a refused bid changes nothing; closing applies `CloseOn`. The participants keep their number and names, and the starting bid is kept. |
| `Bidding.Run` | main.cpp:82-108 | Over any sequence of bids and closings, the participants keep their number and names, and the starting bid does not change. |
| `Bidding.CurrentBidNeverDecreases` | main.cpp:76-96 | Over any run the current bid never falls below its initial value. A state with the current bid at least the starting bid keeps that invariant. |
| `Bidding.ClosedIsFinal` | main.cpp:83-85 | After the auction is closed, no run changes anything: no bid is accepted and no balance moves. |
| `Bidding.NeverReopens` | main.cpp:101-102 | Once a run has closed the auction, every continuation leaves the auction and every balance where they were. |
| `Bidding.WinnerIsLastAccepted` | main.cpp:95-97 | After any run, the current bid and the winner are the amount and bidder of the last accepted bid. When no bid was accepted they keep their initial values. |
| `Bidding.AcceptedBidsIncrease` | main.cpp:87-96 | The accepted bids of a run strictly increase, and each is above the current bid the run started from. |
| `Bidding.BalancesPayOwnBids` | main.cpp:91-97 | After any run, each participant's balance is the initial balance minus the sum of that participant's own accepted bids. Nothing is refunded to an outbid bidder. |
| `Bidding.BalancesStayNonNegative` | main.cpp:50-55 | Balances that start non-negative stay non-negative over every run. |
| `Bidding.CloseReportsLastBidder` | main.cpp:101-108 | Take a new auction whose bidders all have names, and close it after any run. It reports "no winner" exactly when no bid was accepted. Otherwise it names the last accepted bidder. |
| `Bidding.EmptyNameWinnerUnreported` | main.cpp:95-107 | When the last accepted bid came from a participant named "", closing reports no winner although that bid was accepted and paid for. |
| `Bidding.EmptyNameWinnerExample` | main.cpp:82-107 | That case is reachable: a participant named "" with balance 1000 bids 600 on a new auction starting at 500. The bid is accepted, the balance falls to 400, and closing reports no winner. |
| `Summary.Affordable` | main.cpp:230-237 | An auction's "Bids" list: the positions of the participants whose balance is at least the given current bid, scanned in insertion order (characterised by `Summary.AffordableExactly`). |
| `Summary.FirstNamed` | main.cpp:248-253 | The search by name: the position of the first participant bearing the name, or none (characterised by `Summary.FirstNamedIsFirstMatch`). |
| `Summary.ResolveWinner` | main.cpp:246-256 | One closed auction's entry: "no winner" when its winner is empty, otherwise the winner's name with the `FirstNamed` match. |
| `Summary.WinnerLines` | main.cpp:242-259 | The winners section: for the auctions in insertion order, an entry with `ResolveWinner` for each closed one, and none for an open one (characterised by `Summary.WinnerLinesExactly`). |
| `Summary.BidLists` | main.cpp:226-239 | The bids section: the `Affordable` list of each auction's current bid, in insertion order (characterised by `Summary.BidListsPerAuction`). |
| `Summary.EndOfDay` | main.cpp:216-260 | The summary: the bids section followed by the winners section. |
| `Summary.AffordableExactly` | main.cpp:230-237 | An auction's "Bids" list holds exactly the participants whose balance is at least its current bid. Each appears once, in insertion order. |
| `Summary.FirstNamedIsFirstMatch` | main.cpp:248-253 | Name resolution returns the first participant bearing the winner's name. It returns no one exactly when no participant bears it. |
| `Summary.FirstNamedFinds` | main.cpp:248-253 | A participant bearing the name, with no earlier participant bearing it, is the one resolution returns. |
| `Summary.FirstNamedMisses` | main.cpp:248-253 | When no participant bears the name, resolution finds no one. This is the silent no-match case. |
| `Summary.WinnerLinesExactly` | main.cpp:242-259 | The winners section has one entry for every closed auction and none for an open one, in insertion order. Each entry carries the auction's winner, resolved by name, or "no winner". |
| `Summary.BidListsPerAuction` | main.cpp:226-239 | The bids section has one list per auction. The list at position i is auction i's "Bids" list. |
| `Houses.Admit` | main.cpp:180-198 | One registration: the entry is appended when fewer than `capacity` are held; otherwise the collection is unchanged. |
| `Houses.AdmitAll` | main.cpp:180-198 | Several registrations in turn, each by `Admit` (characterised by `Houses.AdmitAllKeepsFirst` and `Houses.AdmitAllBounded`). |
| `Houses.AdmitAllKeepsFirst` | main.cpp:190-198 | Registering any sequence of entries into an empty house keeps the first ten (the capacity), in order, and refuses the rest. |
| `Houses.AdmitAllBounded` | main.cpp:180-198 | No sequence of registrations takes a collection beyond its capacity or shrinks it. |
| `Houses.AuctionHouse.constructor` | main.cpp:178 | A new house is valid and holds no auctions and no participants. |
| `Houses.AuctionHouse.AddAuction` | main.cpp:180-188 | An auction is added exactly when fewer than ten are registered, and it goes into the next slot. At capacity the array and the count are unchanged. The count never exceeds ten. |
| `Houses.AuctionHouse.AddParticipant` | main.cpp:190-198 | A participant is added exactly when fewer than ten are registered, and it goes into the next slot. At capacity the array and the count are unchanged. The count never exceeds ten. |
| `Houses.AuctionHouse.BidsFor` | main.cpp:230-237 | The inner loop over participants yields the "Bids" list of the given current bid. |
| `Houses.AuctionHouse.FindParticipant` | main.cpp:248-253 | The linear search stops at the first participant whose name matches. It yields no one when none matches. |
| `Houses.AuctionHouse.WinnerOf` | main.cpp:246-256 | A closed auction's entry is its winner resolved by name, or "no winner" when the winner is empty. |
| `Houses.AuctionHouse.BidsSection` | main.cpp:226-239 | The loop over auctions yields the bids section of the house's current participants and auctions. |
| `Houses.AuctionHouse.WinnersSection` | main.cpp:242-259 | The loop over auctions yields the winners section of the house's current participants and auctions. |
| `Houses.AuctionHouse.EndOfDaySummary` | main.cpp:216-260 | The summary is the bids section followed by the winners section of the house's current participants and auctions. |

## Left out

- Console output is not modelled. This covers the `displayInfo` methods of participants and of both auction kinds, `displayAuctionsInfo`, `displayParticipantsInfo`, the summary's headings and separators, and its first section, which only prints every participant. A "Bids" entry is the participant's position. The "Bid Amount" printed beside it is always the auction's current bid, so it is not repeated. A winners entry gives the auction's position; the title is not copied into it.
- "Auction house is full" is printed in the source and reported here as the `added` result of `AddAuction` / `AddParticipant`.
- `PatternPrinter`, the interactive menu in `main`, the reading of input, and the final `delete`s are console glue, so they are not modelled. A run requires that each bid names an existing participant, because resolving an index is the caller's concern: `main` indexes its arrays unchecked.
- The exception classes, `what()` strings and `try`/`catch` become the `Error` values. Virtual dispatch over the two auction subclasses becomes the `Kind` tag. The subclasses differ only in what they print.
- The accessors (`getName`, `getBalance`, `getTitle`, `getWinner`, `getCurrentBid`, `isAuctionOpen`) are plain field reads in Dafny (`View()` and `State()` gather them), so they have no members of their own.
- `double` arithmetic is modelled as unbounded `int`, so the rounding of `balance -= amount` (main.cpp:54) is not modelled. With fractional amounts the source's balance can fall short of the exact difference (0.3 - 0.1 is not exactly 0.2), and a later bid for that difference is then refused with InsufficientBalance at main.cpp:91. `Bidding.BalancesPayOwnBids` states the exact sum, which holds for the source only when the amounts are exactly representable.
- The summary is split into helper methods (`BidsFor`, `FindParticipant`, `WinnerOf`, the two sections). In the source each of these is a loop inside `displayEndOfDaySummary`. The source's `break` out of the name search is the helper's early return.
- The collections keep the fixed capacity of ten (main.cpp:169-170, 181, 191) rather than growing.
- A balance is not checked when a participant is created (main.cpp:37-38): the model only shows that deductions keep a non-negative balance non-negative.
- Names need not be unique, and resolution takes the first match (main.cpp:248-253).
- Bidding.CloseReportsLastBidder: requires every bidder to have a non-empty name, because the source lets a participant named "" win. That bid is accepted and paid for, the winner becomes "" (main.cpp:95-97), and both closing (main.cpp:103-104) and the summary (main.cpp:254-255) then report no winner. That case is stated separately by `Bidding.EmptyNameWinnerUnreported` and shown to happen by `Bidding.EmptyNameWinnerExample`.
