/** The auction house: two fixed-capacity arrays of references, one of auctions and
    one of participants, each filled from the front and counted. It does not change
    auctions or participants; it only registers them and reports on them. */
module Houses {
  import opened Outcomes
  import opened Participants
  import opened Auctions
  import opened Summary

  const MaxAuctions: nat := 10
  const MaxParticipants: nat := 10

  /** Registration into a bounded collection: appended while there is room, refused
      (and the collection left as it was) once it holds `capacity` entries. */
  function Admit<T>(xs: seq<T>, x: T, capacity: nat): seq<T> {
    if |xs| < capacity then xs + [x] else xs
  }

  /** Registering several entries in turn. */
  function AdmitAll<T>(xs: seq<T>, adds: seq<T>, capacity: nat): seq<T>
    decreases |adds|
  {
    if adds == [] then xs
    else Admit(AdmitAll(xs, adds[..|adds| - 1], capacity), adds[|adds| - 1], capacity)
  }

  /** Registering entries into an empty collection keeps the first `capacity` of them,
      in order, and refuses the rest. */
  lemma {:induction false} AdmitAllKeepsFirst<T>(adds: seq<T>, capacity: nat)
    ensures |adds| <= capacity ==> AdmitAll([], adds, capacity) == adds
    ensures |adds| > capacity ==> AdmitAll([], adds, capacity) == adds[..capacity]
    decreases |adds|
  {
    if adds != [] {
      var n := |adds| - 1;
      AdmitAllKeepsFirst(adds[..n], capacity);
      if |adds| <= capacity {
        assert adds[..n] + [adds[n]] == adds;
      } else {
        assert adds[..n][..capacity] == adds[..capacity];
      }
    }
  }

  /** Registration never takes a collection beyond its capacity. */
  lemma {:induction false} AdmitAllBounded<T>(xs: seq<T>, adds: seq<T>, capacity: nat)
    requires |xs| <= capacity
    ensures |AdmitAll(xs, adds, capacity)| <= capacity
    ensures |xs| <= |AdmitAll(xs, adds, capacity)|
    decreases |adds|
  {
    if adds != [] {
      AdmitAllBounded(xs, adds[..|adds| - 1], capacity);
    }
  }

  /** The accounts of the given participants, as they are now. */
  ghost function AccountsOf(ps: seq<Participant?>): seq<Account>
    reads ps
    requires forall j :: 0 <= j < |ps| ==> ps[j] != null
    decreases |ps|
  {
    if ps == [] then [] else AccountsOf(ps[..|ps| - 1]) + [ps[|ps| - 1].View()]
  }

  lemma {:induction false} AccountsOfAt(ps: seq<Participant?>, j: nat)
    requires forall k :: 0 <= k < |ps| ==> ps[k] != null
    ensures |AccountsOf(ps)| == |ps|
    ensures j < |ps| ==> AccountsOf(ps)[j] == ps[j].View()
    decreases |ps|
  {
    if ps != [] {
      var n := |ps| - 1;
      AccountsOfAt(ps[..n], if j < n then j else 0);
    }
  }

  /** The bidding states of the given auctions, as they are now. */
  ghost function StatesOf(auctions: seq<Auction?>): seq<AuctionState>
    reads auctions
    requires forall i :: 0 <= i < |auctions| ==> auctions[i] != null
    decreases |auctions|
  {
    if auctions == [] then [] else StatesOf(auctions[..|auctions| - 1]) + [auctions[|auctions| - 1].State()]
  }

  lemma {:induction false} StatesOfAt(auctions: seq<Auction?>, i: nat)
    requires forall k :: 0 <= k < |auctions| ==> auctions[k] != null
    ensures |StatesOf(auctions)| == |auctions|
    ensures i < |auctions| ==> StatesOf(auctions)[i] == auctions[i].State()
    decreases |auctions|
  {
    if auctions != [] {
      var n := |auctions| - 1;
      StatesOfAt(auctions[..n], if i < n then i else 0);
    }
  }

  class AuctionHouse {
    const auctions: array<Auction?>
    const participants: array<Participant?>
    var numAuctions: nat
    var numParticipants: nat

    /** Both arrays have the fixed capacity, both counts stay within it, and every
        counted slot holds an object. */
    ghost predicate Valid()
      reads this, auctions, participants
    {
      && auctions.Length == MaxAuctions
      && participants.Length == MaxParticipants
      && numAuctions <= MaxAuctions
      && numParticipants <= MaxParticipants
      && (forall i :: 0 <= i < numAuctions ==> auctions[i] != null)
      && (forall j :: 0 <= j < numParticipants ==> participants[j] != null)
    }

    /** The registered auctions, in insertion order. */
    ghost function Registered(): seq<Auction?>
      reads this, auctions
      requires numAuctions <= auctions.Length
    {
      auctions[..numAuctions]
    }

    /** The registered participants, in insertion order. */
    ghost function Members(): seq<Participant?>
      reads this, participants
      requires numParticipants <= participants.Length
    {
      participants[..numParticipants]
    }

    /** The accounts of the registered participants, in insertion order, as they are now. */
    ghost function Accounts(): seq<Account>
      reads this, auctions, participants, participants[..]
      requires Valid()
    {
      AccountsOf(participants[..numParticipants])
    }

    /** The bidding states of the registered auctions, in insertion order, as they are now. */
    ghost function States(): seq<AuctionState>
      reads this, auctions, participants, auctions[..]
      requires Valid()
    {
      StatesOf(auctions[..numAuctions])
    }

    constructor ()
      ensures Valid() && fresh(auctions) && fresh(participants)
      ensures Registered() == [] && Members() == []
    {
      auctions := new Auction?[MaxAuctions](_ => null);
      participants := new Participant?[MaxParticipants](_ => null);
      numAuctions := 0;
      numParticipants := 0;
    }

    /** Registers an auction in the next free slot, or refuses it when the house
        already holds the maximum number; a refusal changes nothing. */
    method AddAuction(a: Auction) returns (added: bool)
      requires Valid()
      modifies this`numAuctions, auctions
      ensures Valid()
      ensures added <==> old(numAuctions) < MaxAuctions
      ensures Registered() == Admit(old(Registered()), a, MaxAuctions)
      ensures !added ==> numAuctions == old(numAuctions) && auctions[..] == old(auctions[..])
    {
      if numAuctions >= MaxAuctions {
        return false;
      }
      auctions[numAuctions] := a;
      numAuctions := numAuctions + 1;
      added := true;
    }

    /** Registers a participant in the next free slot, or refuses it when the house
        already holds the maximum number; a refusal changes nothing. */
    method AddParticipant(p: Participant) returns (added: bool)
      requires Valid()
      modifies this`numParticipants, participants
      ensures Valid()
      ensures added <==> old(numParticipants) < MaxParticipants
      ensures Members() == Admit(old(Members()), p, MaxParticipants)
      ensures !added ==> numParticipants == old(numParticipants) && participants[..] == old(participants[..])
    {
      if numParticipants >= MaxParticipants {
        return false;
      }
      participants[numParticipants] := p;
      numParticipants := numParticipants + 1;
      added := true;
    }

    /** The "Bids" list of an auction whose current bid is `bid`: one pass over the
        participants in insertion order. */
    method BidsFor(bid: int) returns (line: seq<nat>)
      requires Valid()
      ensures Accounts() == old(Accounts()) && States() == old(States())
      ensures line == Affordable(Accounts(), bid)
    {
      ghost var ps := Accounts();
      AccountsOfAt(participants[..numParticipants], 0);
      line := [];
      var j := 0;
      while j < numParticipants
        invariant 0 <= j <= numParticipants
        invariant line == Affordable(ps[..j], bid)
      {
        AffordableSnoc(ps, j, bid);
        AccountsOfAt(participants[..numParticipants], j);
        assert ps[j].balance == participants[j].balance;
        if participants[j].balance >= bid {
          line := line + [j];
        }
        j := j + 1;
      }
      assert ps[..numParticipants] == ps;
    }

    /** The linear search by name of the winners section: the first registered
        participant bearing `name`, stopping at the first match. */
    method FindParticipant(name: string) returns (found: Option<nat>)
      requires Valid()
      ensures Accounts() == old(Accounts()) && States() == old(States())
      ensures found == FirstNamed(Accounts(), name)
    {
      ghost var ps := Accounts();
      AccountsOfAt(participants[..numParticipants], 0);
      found := None;
      var j := 0;
      while j < numParticipants
        invariant 0 <= j <= numParticipants
        invariant forall k :: 0 <= k < j ==> ps[k].name != name
      {
        AccountsOfAt(participants[..numParticipants], j);
        assert ps[j].name == participants[j].name;
        if participants[j].name == name {
          found := Some(j);
          FirstNamedFinds(ps, name, j);
          return;
        }
        j := j + 1;
      }
      FirstNamedMisses(ps, name);
    }

    /** The winner of one closed auction, resolved by name to the first matching
        participant, or the note that it has no winner. */
    method WinnerOf(auction: Auction) returns (result: WinnerResult)
      requires Valid()
      ensures result == ResolveWinner(Accounts(), auction.State())
      ensures Accounts() == old(Accounts()) && States() == old(States())
      ensures auction.State() == old(auction.State())
    {
      if auction.winner != "" {
        var found := FindParticipant(auction.winner);
        result := Won(auction.winner, found);
      } else {
        result := NobodyWon;
      }
    }

    /** The bids section: for each auction in insertion order, its "Bids" list. */
    method BidsSection() returns (bids: seq<seq<nat>>)
      requires Valid()
      ensures bids == BidLists(Accounts(), States())
      ensures Accounts() == old(Accounts()) && States() == old(States())
    {
      ghost var ps := Accounts();
      ghost var states := States();
      StatesOfAt(auctions[..numAuctions], 0);
      bids := [];
      var i := 0;
      while i < numAuctions
        invariant 0 <= i <= numAuctions
        invariant Valid() && Accounts() == ps && States() == states
        invariant bids == BidLists(ps, states[..i])
      {
        StatesOfAt(auctions[..numAuctions], i);
        var line := BidsFor(auctions[i].currentBid);
        BidListsSnoc(ps, states, i);
        bids := bids + [line];
        i := i + 1;
      }
      assert states[..numAuctions] == states;
    }

    /** The winners section: every closed auction in insertion order, with its winner
        resolved by name (to no one when no name matches), or the note that it has
        no winner. */
    method WinnersSection() returns (winners: seq<WinnerLine>)
      requires Valid()
      ensures winners == WinnerLines(Accounts(), States())
      ensures Accounts() == old(Accounts()) && States() == old(States())
    {
      ghost var ps := Accounts();
      ghost var states := States();
      StatesOfAt(auctions[..numAuctions], 0);
      winners := [];
      var i := 0;
      while i < numAuctions
        invariant 0 <= i <= numAuctions
        invariant Valid() && Accounts() == ps && States() == states
        invariant winners == WinnerLines(ps, states[..i])
      {
        var auction := auctions[i];
        StatesOfAt(auctions[..numAuctions], i);
        WinnerLinesSnoc(ps, states, i);
        if !auction.isOpen {
          var result := WinnerOf(auction);
          winners := winners + [WinnerLine(i, result)];
        }
        i := i + 1;
      }
      assert states[..numAuctions] == states;
    }

    /** The end-of-day summary: the bids section, then the winners section. */
    method EndOfDaySummary() returns (report: Report)
      requires Valid()
      ensures report == EndOfDay(Accounts(), States())
    {
      var bids := BidsSection();
      var winners := WinnersSection();
      report := Report(bids, winners);
    }
  }
}
