/** Sequences of bids and closings on one auction. The participants are held as
    accounts indexed by position, the way the house and its caller refer to them.
    These lemmas give the properties that hold over every run, not only one step. */
module Bidding {
  import opened Outcomes
  import opened Participants
  import opened Auctions

  /** An operation a caller can apply to the auction: a bid by the participant at
      position `who`, or closing the auction. */
  datatype Op = PlaceBid(who: nat, amount: int) | CloseAuction

  /** One auction and all the participants' accounts. */
  datatype World = World(auction: AuctionState, accounts: seq<Account>)

  /** A bid whose checks all passed. */
  datatype AcceptedBid = AcceptedBid(who: nat, amount: int)

  /** Every bid names an existing participant (resolving an index is the caller's concern). */
  predicate Addresses(ops: seq<Op>, n: nat) {
    forall k :: 0 <= k < |ops| ==> (ops[k].PlaceBid? ==> ops[k].who < n)
  }

  /** Applies one operation; a refused bid leaves the world unchanged. */
  function Step(w: World, op: Op): (r: World)
    requires op.PlaceBid? ==> op.who < |w.accounts|
    ensures |r.accounts| == |w.accounts|
    ensures forall j :: 0 <= j < |w.accounts| ==> r.accounts[j].name == w.accounts[j].name
    ensures r.auction.startingBid == w.auction.startingBid
  {
    match op
    case CloseAuction => w.(auction := CloseOn(w.auction))
    case PlaceBid(i, amount) =>
      match PlaceBidOn(w.auction, w.accounts[i], amount)
      case Ok(e) => World(e.auction, w.accounts[i := w.accounts[i].(balance := e.balance)])
      case Err(_) => w
  }

  /** Whether `op` is a bid that is accepted in `w`. */
  predicate Accepts(w: World, op: Op)
    requires op.PlaceBid? ==> op.who < |w.accounts|
  {
    op.PlaceBid? && PlaceBidOn(w.auction, w.accounts[op.who], op.amount).Ok?
  }

  /** Applies the operations in order. The participants keep their number and names. */
  function Run(w: World, ops: seq<Op>): (r: World)
    requires Addresses(ops, |w.accounts|)
    ensures |r.accounts| == |w.accounts|
    ensures forall j :: 0 <= j < |w.accounts| ==> r.accounts[j].name == w.accounts[j].name
    ensures r.auction.startingBid == w.auction.startingBid
    decreases |ops|
  {
    if ops == [] then w
    else Step(Run(w, ops[..|ops| - 1]), ops[|ops| - 1])
  }

  /** The bids accepted during a run, in the order they were accepted. */
  function Accepted(w: World, ops: seq<Op>): (acc: seq<AcceptedBid>)
    requires Addresses(ops, |w.accounts|)
    ensures forall k :: 0 <= k < |acc| ==> acc[k].who < |w.accounts|
    decreases |ops|
  {
    if ops == [] then []
    else
      var before := Run(w, ops[..|ops| - 1]);
      var op := ops[|ops| - 1];
      Accepted(w, ops[..|ops| - 1]) + (if Accepts(before, op) then [AcceptedBid(op.who, op.amount)] else [])
  }

  /** The total a participant paid over a list of accepted bids. */
  function Paid(bids: seq<AcceptedBid>, j: nat): int
    decreases |bids|
  {
    if bids == [] then 0
    else Paid(bids[..|bids| - 1], j) + (if bids[|bids| - 1].who == j then bids[|bids| - 1].amount else 0)
  }

  /** The current bid never decreases over a run, and a valid auction stays valid. */
  lemma {:induction false} CurrentBidNeverDecreases(w: World, ops: seq<Op>)
    requires Addresses(ops, |w.accounts|)
    ensures Run(w, ops).auction.currentBid >= w.auction.currentBid
    ensures w.auction.Valid() ==> Run(w, ops).auction.Valid()
    decreases |ops|
  {
    if ops != [] {
      CurrentBidNeverDecreases(w, ops[..|ops| - 1]);
    }
  }

  /** Once closed, an auction is final: every later bid is refused, nothing reopens it,
      and no balance changes. */
  lemma {:induction false} ClosedIsFinal(w: World, ops: seq<Op>)
    requires Addresses(ops, |w.accounts|)
    requires !w.auction.isOpen
    ensures Run(w, ops) == w
    ensures Accepted(w, ops) == []
    decreases |ops|
  {
    if ops != [] {
      ClosedIsFinal(w, ops[..|ops| - 1]);
    }
  }

  /** Running two lists of operations one after the other is running their concatenation. */
  lemma {:induction false} RunConcat(w: World, ops: seq<Op>, more: seq<Op>)
    requires Addresses(ops, |w.accounts|) && Addresses(more, |w.accounts|)
    ensures Addresses(ops + more, |w.accounts|)
    ensures Run(w, ops + more) == Run(Run(w, ops), more)
    decreases |more|
  {
    if more == [] {
      assert ops + more == ops;
    } else {
      var all := ops + more;
      assert all[..|all| - 1] == ops + more[..|more| - 1];
      assert all[|all| - 1] == more[|more| - 1];
      RunConcat(w, ops, more[..|more| - 1]);
    }
  }

  /** Closing is for good: a run that has closed the auction leaves it closed
      whatever follows. */
  lemma NeverReopens(w: World, ops: seq<Op>, more: seq<Op>)
    requires Addresses(ops, |w.accounts|) && Addresses(more, |w.accounts|)
    requires !Run(w, ops).auction.isOpen
    ensures Addresses(ops + more, |w.accounts|)
    ensures Run(w, ops + more) == Run(w, ops)
  {
    RunConcat(w, ops, more);
    ClosedIsFinal(Run(w, ops), more);
  }

  /** The auction's current bid and winner are those of the last accepted bid, or
      the initial ones when no bid was accepted. */
  lemma {:induction false} WinnerIsLastAccepted(w: World, ops: seq<Op>)
    requires Addresses(ops, |w.accounts|)
    ensures var r := Run(w, ops); var acc := Accepted(w, ops);
      && (acc == [] ==> r.auction.currentBid == w.auction.currentBid && r.auction.winner == w.auction.winner)
      && (acc != [] ==> r.auction.currentBid == acc[|acc| - 1].amount
                        && r.auction.winner == w.accounts[acc[|acc| - 1].who].name)
    decreases |ops|
  {
    if ops != [] {
      WinnerIsLastAccepted(w, ops[..|ops| - 1]);
    }
  }

  /** Accepted bids strictly increase, each above the current bid the run started from. */
  lemma {:induction false} AcceptedBidsIncrease(w: World, ops: seq<Op>)
    requires Addresses(ops, |w.accounts|)
    ensures var acc := Accepted(w, ops);
      && (forall k :: 0 <= k < |acc| ==> w.auction.currentBid < acc[k].amount)
      && (forall k, l :: 0 <= k < l < |acc| ==> acc[k].amount < acc[l].amount)
    decreases |ops|
  {
    if ops != [] {
      var init := ops[..|ops| - 1];
      AcceptedBidsIncrease(w, init);
      WinnerIsLastAccepted(w, init);
      CurrentBidNeverDecreases(w, init);
    }
  }

  /** Money leaves a participant only through that participant's own accepted bids,
      each for exactly its amount, and nothing is ever paid back: in particular an
      outbid participant is not refunded. */
  lemma {:induction false} BalancesPayOwnBids(w: World, ops: seq<Op>, j: nat)
    requires Addresses(ops, |w.accounts|)
    requires j < |w.accounts|
    ensures Run(w, ops).accounts[j].balance == w.accounts[j].balance - Paid(Accepted(w, ops), j)
    decreases |ops|
  {
    if ops != [] {
      var init := ops[..|ops| - 1];
      var op := ops[|ops| - 1];
      var before := Run(w, init);
      BalancesPayOwnBids(w, init, j);
      var acc := Accepted(w, ops);
      if Accepts(before, op) {
        assert acc == Accepted(w, init) + [AcceptedBid(op.who, op.amount)];
        assert acc[..|acc| - 1] == Accepted(w, init);
      } else {
        assert acc == Accepted(w, init);
      }
    }
  }

  /** Balances that start non-negative stay non-negative over every run. */
  lemma {:induction false} BalancesStayNonNegative(w: World, ops: seq<Op>)
    requires Addresses(ops, |w.accounts|)
    requires forall j :: 0 <= j < |w.accounts| ==> w.accounts[j].balance >= 0
    ensures forall j :: 0 <= j < |w.accounts| ==> Run(w, ops).accounts[j].balance >= 0
    decreases |ops|
  {
    if ops != [] {
      var before := Run(w, ops[..|ops| - 1]);
      BalancesStayNonNegative(w, ops[..|ops| - 1]);
      var op := ops[|ops| - 1];
      if op.PlaceBid? {
        var bidder := before.accounts[op.who];
        match PlaceBidOn(before.auction, bidder, op.amount)
        case Ok(e) =>
          assert Deduct(bidder.balance, op.amount) == Ok(e.balance);
          assert Run(w, ops).accounts == before.accounts[op.who := bidder.(balance := e.balance)];
        case Err(_) =>
          assert Run(w, ops).accounts == before.accounts;
      } else {
        assert Run(w, ops).accounts == before.accounts;
      }
    }
  }

  /** Starting from a new auction whose bidders all have names, closing reports no
      winner exactly when no bid was accepted, and otherwise the last accepted bidder. */
  lemma CloseReportsLastBidder(startingBid: int, accounts: seq<Account>, ops: seq<Op>)
    requires Addresses(ops, |accounts|)
    requires forall j :: 0 <= j < |accounts| ==> accounts[j].name != ""
    ensures var w := World(Opening(startingBid), accounts);
      var acc := Accepted(w, ops);
      var a := Announce(CloseOn(Run(w, ops).auction));
      && (a == NoWinner <==> acc == [])
      && (acc != [] ==> a == WonBy(accounts[acc[|acc| - 1].who].name))
  {
    WinnerIsLastAccepted(World(Opening(startingBid), accounts), ops);
  }

  /** A bidder with an empty name can win: the bid is accepted and paid for, yet the
      auction's winner is the empty string, so closing reports no winner. */
  lemma EmptyNameWinnerUnreported(w: World, ops: seq<Op>)
    requires Addresses(ops, |w.accounts|)
    requires Accepted(w, ops) != []
    requires w.accounts[Accepted(w, ops)[|Accepted(w, ops)| - 1].who].name == ""
    ensures Announce(CloseOn(Run(w, ops).auction)) == NoWinner
  {
    WinnerIsLastAccepted(w, ops);
  }

  /** The case above happens: a participant named "" with balance 1000 bids 600 on a new
      auction starting at 500; the bid is accepted and 600 is paid, and closing reports
      no winner. */
  lemma EmptyNameWinnerExample()
    ensures var w := World(Opening(500), [Account("", 1000)]);
      && Accepted(w, [PlaceBid(0, 600)]) == [AcceptedBid(0, 600)]
      && Run(w, [PlaceBid(0, 600)]).accounts[0].balance == 400
      && Announce(CloseOn(Run(w, [PlaceBid(0, 600)]).auction)) == NoWinner
  {
    var w := World(Opening(500), [Account("", 1000)]);
    var ops := [PlaceBid(0, 600)];
    assert ops[..0] == [];
    EmptyNameWinnerUnreported(w, ops);
  }
}
