/** An auction: the Open/Closed state machine over the current bid and the winner.
    The pure functions give the meaning of one operation on the bidding state; the
    class is the object the house and its callers hold, and its methods are proved
    to change its fields exactly as those functions say. */
module Auctions {
  import opened Outcomes
  import opened Participants

  /** The two kinds of auction differ only in the one text they display. */
  datatype Kind = ItemAuction(description: string) | ArtAuction(artist: string)

  /** The bidding state of an auction. An empty winner means "no winner". */
  datatype AuctionState = AuctionState(startingBid: int, currentBid: int, winner: string, isOpen: bool)
  {
    /** The invariant every reachable state keeps: the current bid never falls below the start. */
    predicate Valid() {
      startingBid <= currentBid
    }
  }

  /** The state a new auction starts in. */
  function Opening(startingBid: int): AuctionState {
    AuctionState(startingBid, startingBid, "", true)
  }

  /** What an accepted bid leaves behind: the new auction state and the bidder's new balance. */
  datatype BidEffect = BidEffect(auction: AuctionState, balance: int)

  /** One bid on an auction. The checks run in a fixed order: the auction must be open,
      the amount strictly above the current bid, and within the bidder's balance. */
  function PlaceBidOn(s: AuctionState, bidder: Account, amount: int): (r: Result<BidEffect>)
    ensures r == Err(AuctionClosed) <==> !s.isOpen
    ensures r == Err(InvalidBid) <==> s.isOpen && amount <= s.currentBid
    ensures r == Err(InsufficientBalance) <==> s.isOpen && s.currentBid < amount && bidder.balance < amount
    ensures r.Ok? <==> s.isOpen && s.currentBid < amount <= bidder.balance
    ensures r.Ok? ==> r.value.auction == s.(currentBid := amount, winner := bidder.name)
    ensures r.Ok? ==> Deduct(bidder.balance, amount) == Ok(r.value.balance)
  {
    if !s.isOpen then Err(AuctionClosed)
    else if amount <= s.currentBid then Err(InvalidBid)
    else if amount > bidder.balance then Err(InsufficientBalance)
    else Ok(BidEffect(s.(currentBid := amount, winner := bidder.name), bidder.balance - amount))
  }

  /** Closing freezes the current bid and the winner. */
  function CloseOn(s: AuctionState): AuctionState {
    s.(isOpen := false)
  }

  /** What closing reports. */
  datatype Announcement = NoWinner | WonBy(name: string)

  function Announce(s: AuctionState): (a: Announcement)
    ensures a == NoWinner <==> s.winner == ""
    ensures a.WonBy? ==> a.name == s.winner
  {
    if s.winner == "" then NoWinner else WonBy(s.winner)
  }

  /** An accepted bid strictly raises the current bid, keeps the state valid and open,
      and leaves the bidder with a non-negative balance lower by exactly the amount. */
  lemma AcceptedBidRaises(s: AuctionState, bidder: Account, amount: int)
    requires s.Valid()
    requires PlaceBidOn(s, bidder, amount).Ok?
    ensures var e := PlaceBidOn(s, bidder, amount).value;
      && e.auction.Valid() && e.auction.isOpen
      && e.auction.startingBid == s.startingBid
      && e.auction.currentBid > s.currentBid
      && e.auction.winner == bidder.name
      && 0 <= e.balance == bidder.balance - amount
  {
  }

  /** A closed auction refuses every bid, whoever bids and whatever the amount. */
  lemma ClosedRefusesBids(s: AuctionState, bidder: Account, amount: int)
    requires !s.isOpen
    ensures PlaceBidOn(s, bidder, amount) == Err(AuctionClosed)
  {
  }

  /** Closing keeps the current bid and the winner, and closing again changes nothing. */
  lemma CloseFreezes(s: AuctionState)
    ensures var c := CloseOn(s);
      && !c.isOpen && c.currentBid == s.currentBid && c.winner == s.winner
      && c.startingBid == s.startingBid && CloseOn(c) == c
      && (s.Valid() ==> c.Valid())
  {
  }

  class Auction {
    const title: string
    const kind: Kind
    const startingBid: int
    var currentBid: int
    var winner: string
    var isOpen: bool

    /** The bidding state of this auction. */
    function State(): AuctionState
      reads this
    {
      AuctionState(startingBid, currentBid, winner, isOpen)
    }

    /** A new auction is open, its current bid is the starting bid, and it has no winner. */
    constructor (title: string, startingBid: int, kind: Kind)
      ensures State() == Opening(startingBid) && State().Valid()
      ensures isOpen && currentBid == startingBid && winner == ""
      ensures this.title == title && this.kind == kind
    {
      this.title := title;
      this.kind := kind;
      this.startingBid := startingBid;
      currentBid := startingBid;
      winner := "";
      isOpen := true;
    }

    /** The default auction: empty title, starting bid zero, open. */
    constructor Blank(kind: Kind)
      ensures State() == Opening(0) && title == "" && this.kind == kind
    {
      title := "";
      this.kind := kind;
      startingBid := 0;
      currentBid := 0;
      winner := "";
      isOpen := true;
    }

    /** Places a bid for `bidder`. On success the bidder pays the full amount at once
        and becomes the winner; on any failure nothing changes. No other participant
        is touched, so a bidder who is outbid gets nothing back. */
    method PlaceBid(bidder: Participant, amount: int) returns (r: Outcome)
      modifies this`currentBid, this`winner, bidder`balance
      ensures match PlaceBidOn(old(State()), old(bidder.View()), amount)
                case Ok(e) => r == Pass && State() == e.auction && bidder.balance == e.balance
                case Err(err) => r == Fail(err) && State() == old(State()) && bidder.balance == old(bidder.balance)
    {
      if !isOpen {
        return Fail(AuctionClosed);
      }
      if amount <= currentBid {
        return Fail(InvalidBid);
      }
      if amount > bidder.balance {
        return Fail(InsufficientBalance);
      }
      var paid := bidder.DeductBalance(amount);
      currentBid := amount;
      winner := bidder.name;
      r := Pass;
    }

    /** Closes the auction for good and reports the winner, or that there is none. */
    method CloseAuction() returns (a: Announcement)
      modifies this`isOpen
      ensures State() == CloseOn(old(State()))
      ensures a == Announce(State())
    {
      isOpen := false;
      if winner == "" {
        a := NoWinner;
      } else {
        a := WonBy(winner);
      }
    }
  }

  /** A scenario over the program's seeded sample data: John (balance 1000) and Alice
      (balance 2000) bid on the laptop auction, which starts at 500. The bids themselves
      are chosen here; only the contracts above are used. */
  method SampleBidding()
  {
    var john := new Participant("John", 1000, "1234567890", "A123456789", "Male");
    var alice := new Participant("Alice", 2000, "9876543210", "B987654321", "Female");
    var laptop := new Auction("Laptop", 500, ItemAuction("Brand new laptop"));

    var r := laptop.PlaceBid(john, 600);
    assert r == Pass && john.balance == 400 && laptop.currentBid == 600 && laptop.winner == "John";

    r := laptop.PlaceBid(alice, 600);
    assert r == Fail(InvalidBid) && alice.balance == 2000 && laptop.winner == "John";

    r := laptop.PlaceBid(alice, 700);
    assert r == Pass && laptop.currentBid == 700 && laptop.winner == "Alice";
    assert john.balance == 400 && alice.balance == 1300;

    var a := laptop.CloseAuction();
    assert a == WonBy("Alice");

    r := laptop.PlaceBid(john, 900);
    assert r == Fail(AuctionClosed) && john.balance == 400 && laptop.currentBid == 700;
  }
}
