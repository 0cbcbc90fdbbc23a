/** A participant of the auction house: identity data and a cash balance
    that only ever changes by a guarded deduction. */
module Participants {
  import opened Outcomes

  /** What the bidding logic and the end-of-day summary look at in a participant:
      its name (its identity key) and its balance at one moment. */
  datatype Account = Account(name: string, balance: int)

  /** The guarded subtraction of a deduction: refused when the amount exceeds the
      balance, otherwise exact. A deduction can never leave the balance negative. */
  function Deduct(balance: int, amount: int): (r: Result<int>)
    ensures r.Err? <==> amount > balance
    ensures r.Err? ==> r.error == InsufficientBalance
    ensures r.Ok? ==> r.value + amount == balance && r.value >= 0
  {
    if amount > balance then Err(InsufficientBalance) else Ok(balance - amount)
  }

  class Participant {
    const name: string
    const phoneNumber: string
    const accountDetails: string
    const gender: string
    var balance: int

    constructor (name: string, balance: int, phoneNumber: string, accountDetails: string, gender: string)
      ensures this.name == name && this.balance == balance
      ensures this.phoneNumber == phoneNumber && this.accountDetails == accountDetails && this.gender == gender
    {
      this.name := name;
      this.balance := balance;
      this.phoneNumber := phoneNumber;
      this.accountDetails := accountDetails;
      this.gender := gender;
    }

    /** The default participant: empty strings and a zero balance. */
    constructor Blank()
      ensures name == "" && balance == 0
      ensures phoneNumber == "" && accountDetails == "" && gender == ""
    {
      name, balance := "", 0;
      phoneNumber, accountDetails, gender := "", "", "";
    }

    function View(): Account
      reads this
    {
      Account(name, balance)
    }

    /** Takes `amount` out of the balance, or fails with InsufficientBalance
        and leaves the balance as it was. */
    method DeductBalance(amount: int) returns (r: Outcome)
      modifies this`balance
      ensures match Deduct(old(balance), amount)
                case Ok(b) => r == Pass && balance == b
                case Err(e) => r == Fail(e) && balance == old(balance)
    {
      if amount > balance {
        return Fail(InsufficientBalance);
      }
      balance := balance - amount;
      r := Pass;
    }
  }
}
