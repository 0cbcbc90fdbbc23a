/** The selection rules of the end-of-day summary, as functions over the
    participants' accounts and the auctions' states, both in insertion order.
    Participants and auctions are named by their position. Each function is
    followed by the lemma that says what it selects. */
module Summary {
  import opened Outcomes
  import opened Participants
  import opened Auctions

  /** The "Bids" list of an auction: the participants whose balance is at least the
      current bid, in insertion order. It lists who could afford the current bid;
      it is not a history of bids. */
  function Affordable(ps: seq<Account>, bid: int): seq<nat>
    decreases |ps|
  {
    if ps == [] then []
    else
      var n := |ps| - 1;
      Affordable(ps[..n], bid) + (if ps[n].balance >= bid then [n] else [])
  }

  /** The first participant with the given name, if any. */
  function FirstNamed(ps: seq<Account>, name: string): Option<nat>
    decreases |ps|
  {
    if ps == [] then None
    else if ps[0].name == name then Some(0)
    else match FirstNamed(ps[1..], name)
      case None => None
      case Some(k) => Some(k + 1)
  }

  /** What the winners section says about one closed auction. */
  datatype WinnerResult = NobodyWon | Won(name: string, participant: Option<nat>)

  /** One entry of the winners section: the auction's position and its result. */
  datatype WinnerLine = WinnerLine(auction: nat, result: WinnerResult)

  /** The winner of a closed auction, resolved by name to the first matching participant;
      a name that matches no one resolves to no participant. */
  function ResolveWinner(ps: seq<Account>, s: AuctionState): WinnerResult {
    if s.winner == "" then NobodyWon else Won(s.winner, FirstNamed(ps, s.winner))
  }

  /** The winners section: one entry for each closed auction, in insertion order. */
  function WinnerLines(ps: seq<Account>, auctions: seq<AuctionState>): seq<WinnerLine>
    decreases |auctions|
  {
    if auctions == [] then []
    else
      var n := |auctions| - 1;
      WinnerLines(ps, auctions[..n])
        + (if !auctions[n].isOpen then [WinnerLine(n, ResolveWinner(ps, auctions[n]))] else [])
  }

  /** The bids section: for each auction in insertion order, its "Bids" list. */
  function BidLists(ps: seq<Account>, auctions: seq<AuctionState>): seq<seq<nat>>
    decreases |auctions|
  {
    if auctions == [] then []
    else
      var n := |auctions| - 1;
      BidLists(ps, auctions[..n]) + [Affordable(ps, auctions[n].currentBid)]
  }

  /** The content of the end-of-day summary beyond the participants' own data. */
  datatype Report = Report(bids: seq<seq<nat>>, winners: seq<WinnerLine>)

  function EndOfDay(ps: seq<Account>, auctions: seq<AuctionState>): Report {
    Report(BidLists(ps, auctions), WinnerLines(ps, auctions))
  }

  /** Extending the participants by one adds that participant to the "Bids" list
      exactly when it can afford the bid. */
  lemma AffordableSnoc(ps: seq<Account>, j: nat, bid: int)
    requires j < |ps|
    ensures Affordable(ps[..j + 1], bid) == Affordable(ps[..j], bid) + (if ps[j].balance >= bid then [j] else [])
  {
    assert ps[..j + 1][..j] == ps[..j];
  }

  /** Extending the auctions by one adds that auction's "Bids" list. */
  lemma BidListsSnoc(ps: seq<Account>, auctions: seq<AuctionState>, i: nat)
    requires i < |auctions|
    ensures BidLists(ps, auctions[..i + 1]) == BidLists(ps, auctions[..i]) + [Affordable(ps, auctions[i].currentBid)]
  {
    assert auctions[..i + 1][..i] == auctions[..i];
  }

  /** Extending the auctions by one adds a winners entry exactly when that auction is closed. */
  lemma WinnerLinesSnoc(ps: seq<Account>, auctions: seq<AuctionState>, i: nat)
    requires i < |auctions|
    ensures WinnerLines(ps, auctions[..i + 1]) == WinnerLines(ps, auctions[..i])
      + (if !auctions[i].isOpen then [WinnerLine(i, ResolveWinner(ps, auctions[i]))] else [])
  {
    assert auctions[..i + 1][..i] == auctions[..i];
  }

  /** The "Bids" list holds exactly the participants who can afford the bid, each once,
      in insertion order. */
  lemma {:induction false} AffordableExactly(ps: seq<Account>, bid: int)
    ensures var r := Affordable(ps, bid);
      && (forall k :: 0 <= k < |r| ==> r[k] < |ps| && ps[r[k]].balance >= bid)
      && (forall j :: 0 <= j < |ps| && ps[j].balance >= bid ==> j in r)
      && (forall k, l :: 0 <= k < l < |r| ==> r[k] < r[l])
    decreases |ps|
  {
    if ps != [] {
      var n := |ps| - 1;
      AffordableExactly(ps[..n], bid);
      var before := Affordable(ps[..n], bid);
      var r := Affordable(ps, bid);
      assert forall k :: 0 <= k < |before| ==> r[k] == before[k];
      assert forall j :: 0 <= j < n ==> ps[..n][j] == ps[j];
    }
  }

  /** Name resolution finds the first participant bearing the name, and finds no one
      exactly when no participant bears it. */
  lemma {:induction false} FirstNamedIsFirstMatch(ps: seq<Account>, name: string)
    ensures var r := FirstNamed(ps, name);
      && (r.Some? ==> r.value < |ps| && ps[r.value].name == name
                      && forall j :: 0 <= j < r.value ==> ps[j].name != name)
      && (r.None? <==> forall j :: 0 <= j < |ps| ==> ps[j].name != name)
    decreases |ps|
  {
    if ps != [] && ps[0].name != name {
      FirstNamedIsFirstMatch(ps[1..], name);
      assert forall j :: 1 <= j < |ps| ==> ps[1..][j - 1] == ps[j];
    }
  }

  /** Name resolution stops at a participant bearing the name when no earlier one does. */
  lemma FirstNamedFinds(ps: seq<Account>, name: string, j: nat)
    requires j < |ps| && ps[j].name == name
    requires forall k :: 0 <= k < j ==> ps[k].name != name
    ensures FirstNamed(ps, name) == Some(j)
  {
    FirstNamedIsFirstMatch(ps, name);
  }

  /** Name resolution finds no one when no participant bears the name. */
  lemma FirstNamedMisses(ps: seq<Account>, name: string)
    requires forall k :: 0 <= k < |ps| ==> ps[k].name != name
    ensures FirstNamed(ps, name) == None
  {
    FirstNamedIsFirstMatch(ps, name);
  }

  /** The winners section has an entry for every closed auction and for nothing else,
      in insertion order, each carrying that auction's resolved winner. */
  lemma {:induction false} WinnerLinesExactly(ps: seq<Account>, auctions: seq<AuctionState>)
    ensures var r := WinnerLines(ps, auctions);
      && (forall k :: 0 <= k < |r| ==>
            r[k].auction < |auctions| && !auctions[r[k].auction].isOpen
            && r[k].result == ResolveWinner(ps, auctions[r[k].auction]))
      && (forall i :: 0 <= i < |auctions| && !auctions[i].isOpen ==>
            exists k :: 0 <= k < |r| && r[k].auction == i)
      && (forall k, l :: 0 <= k < l < |r| ==> r[k].auction < r[l].auction)
    decreases |auctions|
  {
    if auctions != [] {
      var n := |auctions| - 1;
      WinnerLinesExactly(ps, auctions[..n]);
      var earlier := WinnerLines(ps, auctions[..n]);
      var r := WinnerLines(ps, auctions);
      assert forall k :: 0 <= k < |earlier| ==> r[k] == earlier[k];
      assert forall i :: 0 <= i < n ==> auctions[..n][i] == auctions[i];
      assert !auctions[n].isOpen ==> r[|earlier|].auction == n;
    }
  }

  /** The bids section has one list per auction, and the list of auction i is that
      auction's "Bids" list. */
  lemma {:induction false} BidListsPerAuction(ps: seq<Account>, auctions: seq<AuctionState>, i: nat)
    requires i < |auctions|
    ensures |BidLists(ps, auctions)| == |auctions|
    ensures BidLists(ps, auctions)[i] == Affordable(ps, auctions[i].currentBid)
    decreases |auctions|
  {
    var n := |auctions| - 1;
    if i < n {
      BidListsPerAuction(ps, auctions[..n], i);
    } else if n > 0 {
      BidListsPerAuction(ps, auctions[..n], 0);
    }
  }
}
