/**
 * The vote allocation of the voting page: the `votes` object that maps a
 * candidate's address to the votes the user assigns it, the clamped update
 * `setVote` performs on it, and the status `getVoteStatus` derives from it
 * and from the wallet's balance.
 */
module Allocation {
  import opened Wrappers
  import opened JsObject
  import opened JsNumber

  /** A value of the `votes` object: `""` (a cleared or unreadable field) or a number. */
  datatype Entry = Empty | Num(n: int)

  type Votes = Obj<Entry>

  /** What `setVote` receives: the text typed in a vote field, or the number a -/+ button computed. */
  datatype VoteInput = Typed(text: string) | Stepped(amount: int)

  /**
   * The number an entry stands for: a number is itself and an empty entry
   * counts 0. This is how an entry enters the sum of spent votes, how the
   * current entry of an address is read, and what an empty entry becomes
   * when it is compared with a number.
   */
  function Value(e: Entry): int
  {
    match e
    case Empty => 0
    case Num(n) => n
  }

  /** The entry of an address, 0 when it has none or it is empty. */
  function CurrentValue(votes: Votes, address: string): int
  {
    match Get(votes, address)
    case None => 0
    case Some(e) => Value(e)
  }

  /** The votes spent: the sum of all entries in object order, empty entries counting 0. */
  function Spent(votes: Votes): (r: int)
    ensures (forall i :: 0 <= i < |votes| ==> Value(votes[i].value) >= 0) ==> r >= 0
  {
    if votes == [] then 0 else Value(votes[0].value) + Spent(votes[1..])
  }

  /** The votes spent on every address other than `address`. */
  function SpentExcept(votes: Votes, address: string): int
  {
    if votes == [] then 0
    else (if votes[0].key == address then 0 else Value(votes[0].value)) + SpentExcept(votes[1..], address)
  }

  // ---------------------------------------------------------------------------
  // getVoteStatus
  // ---------------------------------------------------------------------------

  /** The four messages of the status line; the source codes them 1, 0, -1 and -2. */
  datatype VoteState = Remaining | AllUsed | Overspent | NoBalance

  datatype VoteStatus = VoteStatus(
    trxBalance: nat,
    votesSpend: int,
    votesAvailable: int,
    spendAll: bool,
    voteState: VoteState)

  /** `votesAvailable`: the balance less the votes spent. */
  function Available(votes: Votes, balance: nat): int
  {
    balance - Spent(votes)
  }

  /** The status `getVoteStatus` reports for the given votes and balance. */
  function GetVoteStatus(votes: Votes, balance: nat): (s: VoteStatus)
    ensures s.trxBalance == balance && s.votesSpend == Spent(votes)
    ensures s.votesAvailable + s.votesSpend == balance
    ensures s.spendAll <==> s.voteState == AllUsed
    ensures s.voteState == NoBalance <==> balance == 0
    ensures s.voteState == Overspent <==> balance > 0 && s.votesSpend > balance
    ensures s.voteState == AllUsed <==> balance > 0 && s.votesSpend == balance
    ensures s.voteState == Remaining <==> balance > 0 && s.votesSpend < balance
  {
    var votesSpend := Spent(votes);
    var votesAvailable := Available(votes, balance);
    var spendAll := votesSpend > 0 && votesAvailable == 0;
    var voteState :=
      if votesAvailable > 0 then Remaining
      else if votesAvailable < 0 then Overspent
      else AllUsed;
    VoteStatus(balance, votesSpend, votesAvailable, spendAll,
               if balance == 0 then NoBalance else voteState)
  }

  // ---------------------------------------------------------------------------
  // setVote
  // ---------------------------------------------------------------------------

  /**
   * The input read as a decimal integer. A number from a button is first
   * written out in decimal and read back, which gives it again
   * (ParseDecimalString).
   */
  function Parse(input: VoteInput): Option<int>
  {
    match input
    case Typed(s) => ParseInt(s)
    case Stepped(n) => Some(n)
  }

  /** The input as `setVote` normalises it: `""` when empty or not a number, negative numbers raised to 0. */
  function Normalize(input: VoteInput): (e: Entry)
    ensures e.Num? ==> e.n >= 0
    ensures e == Empty <==> Parse(input).None?
    ensures Parse(input).Some? ==> e == Num(if Parse(input).value < 0 then 0 else Parse(input).value)
  {
    if input == Typed("") then Empty
    else
      match Parse(input)
      case None => Empty
      case Some(n) => if n < 0 then Num(0) else Num(n)
  }

  /**
   * The most `address` may hold: the votes still available (as
   * `getVoteStatus` reports them) plus what the address holds now.
   */
  function Budget(votes: Votes, address: string, balance: nat): (r: int)
    ensures WellFormed(votes) ==> r == balance - SpentExcept(votes, address)
  {
    var r := Available(votes, balance) + CurrentValue(votes, address);
    if WellFormed(votes) then
      SpentSplit(votes, address);
      r
    else
      r
  }

  /** Lowers an entry that exceeds the budget to the budget. */
  function Clamp(e: Entry, budget: int): (r: Entry)
    ensures Value(r) <= budget
    ensures Value(e) <= budget ==> r == e
    ensures Value(e) > budget ==> r == Num(budget)
  {
    if Value(e) > budget then Num(budget) else e
  }

  /** The entry `setVote` stores for an address, given the input. */
  function Stored(votes: Votes, address: string, input: VoteInput, balance: nat): (e: Entry)
    ensures Value(e) <= Budget(votes, address, balance)
    ensures Parse(input).None? ==>
      var budget := Budget(votes, address, balance);
      e == if budget >= 0 then Empty else Num(budget)
    ensures Parse(input).Some? ==>
      var budget := Budget(votes, address, balance);
      var wanted := if Parse(input).value < 0 then 0 else Parse(input).value;
      e == Num(if wanted <= budget then wanted else budget)
  {
    Clamp(Normalize(input), Budget(votes, address, balance))
  }

  /** The `votes` object after `setVote` has written one address. */
  function AfterSetVote(votes: Votes, address: string, input: VoteInput, balance: nat): (r: Votes)
    ensures forall k :: Get(r, k) == if k == address then Some(Stored(votes, address, input, balance)) else Get(votes, k)
    ensures WellFormed(votes) ==> WellFormed(r)
  {
    Put(votes, address, Stored(votes, address, input, balance))
  }

  /** In a well-formed object the votes spent split into the address's entry and all the others. */
  lemma {:induction false} SpentSplit(votes: Votes, address: string)
    requires WellFormed(votes)
    ensures Spent(votes) == SpentExcept(votes, address) + CurrentValue(votes, address)
  {
    if votes != [] {
      WellFormedCons(votes[0], votes[1..]);
      assert [votes[0]] + votes[1..] == votes;
      SpentSplit(votes[1..], address);
      if votes[0].key == address {
        assert Get(votes[1..], address) == None;
        SpentExceptAbsent(votes[1..], address);
      }
    }
  }

  lemma {:induction false} SpentExceptAbsent(votes: Votes, address: string)
    requires address !in Keys(votes)
    ensures SpentExcept(votes, address) == Spent(votes)
  {
    if votes != [] {
      assert Keys(votes)[0] == votes[0].key;
      assert Keys(votes[1..]) == Keys(votes)[1..];
      SpentExceptAbsent(votes[1..], address);
    }
  }

  /** Writing `votes[address]` leaves the votes spent on the other addresses alone. */
  lemma {:induction false} SpentExceptPut(votes: Votes, address: string, e: Entry)
    ensures SpentExcept(Put(votes, address, e), address) == SpentExcept(votes, address)
  {
    if votes != [] && votes[0].key != address {
      SpentExceptPut(votes[1..], address, e);
    }
  }

  /**
   * The invariant of the allocation: after any `setVote` the votes spent do
   * not exceed the balance, whatever they were before, so the status is
   * never "too many votes".
   */
  lemma SetVoteWithinBalance(votes: Votes, address: string, input: VoteInput, balance: nat)
    requires WellFormed(votes)
    ensures var after := AfterSetVote(votes, address, input, balance);
      && Spent(after) == SpentExcept(votes, address) + Value(Stored(votes, address, input, balance))
      && Spent(after) <= balance
      && GetVoteStatus(after, balance).voteState != Overspent
  {
    var e := Stored(votes, address, input, balance);
    var after := Put(votes, address, e);
    SpentSplit(after, address);
    SpentExceptPut(votes, address, e);
  }

  /** Entering the same input twice for an address gives the same allocation as entering it once. */
  lemma SetVoteIdempotent(votes: Votes, address: string, input: VoteInput, balance: nat)
    requires WellFormed(votes)
    ensures var once := AfterSetVote(votes, address, input, balance);
      AfterSetVote(once, address, input, balance) == once
  {
    var e := Stored(votes, address, input, balance);
    var once := Put(votes, address, e);
    SpentExceptPut(votes, address, e);
    assert Stored(once, address, input, balance) == e;
    PutSame(once, address, e);
  }

  lemma {:induction false} PutSame(o: Votes, address: string, e: Entry)
    requires Get(o, address) == Some(e)
    ensures Put(o, address, e) == o
  {
    if o != [] && o[0].key != address {
      PutSame(o[1..], address, e);
    }
  }

  // ---------------------------------------------------------------------------
  // The -/+ buttons of a vote field
  // ---------------------------------------------------------------------------

  /** The step of the -/+ buttons: a twentieth of the balance, rounded up. */
  function VoteSize(balance: nat): (r: nat)
    ensures balance <= 20 * r < balance + 20
    ensures balance > 0 ==> r >= 1
  {
    (balance + 19) / 20
  }

  /** The input the "+" button passes: the current entry plus one step. */
  function PlusInput(votes: Votes, address: string, balance: nat): VoteInput
  {
    Stepped(CurrentValue(votes, address) + VoteSize(balance))
  }

  /** The input the "-" button passes: the current entry less one step. */
  function MinusInput(votes: Votes, address: string, balance: nat): VoteInput
  {
    Stepped(CurrentValue(votes, address) - VoteSize(balance))
  }

  /** The votes after one press of "+" for `address`. */
  function PressPlus(votes: Votes, address: string, balance: nat): (r: Votes)
    ensures forall k :: k != address ==> Get(r, k) == Get(votes, k)
    ensures CurrentValue(r, address) <= Budget(votes, address, balance)
  {
    AfterSetVote(votes, address, PlusInput(votes, address, balance), balance)
  }

  function Min(a: int, b: int): int
  {
    if a <= b then a else b
  }

  /**
   * One press of "+" adds one step to the address, but not above its budget;
   * a negative entry (left by an overspent load) that is still negative after
   * the step becomes 0. The budget does not move.
   */
  lemma PressPlusOnce(votes: Votes, address: string, balance: nat)
    requires WellFormed(votes)
    ensures var after := PressPlus(votes, address, balance);
      var raised := CurrentValue(votes, address) + VoteSize(balance);
      && WellFormed(after)
      && Budget(after, address, balance) == Budget(votes, address, balance)
      && CurrentValue(after, address) == Min(if raised < 0 then 0 else raised, Budget(votes, address, balance))
  {
    var e := Stored(votes, address, PlusInput(votes, address, balance), balance);
    SpentExceptPut(votes, address, e);
  }

  /**
   * Pressing "-" lowers a field by one step, but not below 0 and not above
   * its budget (which only binds when the votes exceed the balance).
   */
  lemma PressMinusStopsAtZero(votes: Votes, address: string, balance: nat)
    ensures var lowered := CurrentValue(votes, address) - VoteSize(balance);
      CurrentValue(AfterSetVote(votes, address, MinusInput(votes, address, balance), balance), address)
        == Min(if lowered < 0 then 0 else lowered, Budget(votes, address, balance))
  {
  }

  /**
   * Votes loaded from the account may already exceed the balance. Then the
   * budget of a new address is negative, and `setVote` appends that negative
   * number whatever the input.
   */
  lemma LoadedOverspendStoresNegative(votes: Votes, address: string, input: VoteInput, balance: nat)
    requires WellFormed(votes) && address !in Keys(votes)
    requires Spent(votes) > balance
    ensures balance - Spent(votes) < 0
    ensures AfterSetVote(votes, address, input, balance)
         == votes + [Property(address, Num(balance - Spent(votes)))]
  {
    NewAddressBudget(votes, address, balance);
    StoredOverBudget(votes, address, input, balance);
  }

  /** The negative entry brings the votes spent back to exactly the balance. */
  lemma LoadedOverspendRestoresBalance(votes: Votes, address: string, input: VoteInput, balance: nat)
    requires WellFormed(votes) && address !in Keys(votes)
    requires Spent(votes) > balance
    ensures Spent(AfterSetVote(votes, address, input, balance)) == balance
  {
    NewAddressBudget(votes, address, balance);
    StoredOverBudget(votes, address, input, balance);
    SetVoteWithinBalance(votes, address, input, balance);
    SpentExceptAbsent(votes, address);
  }

  /** An address the allocation does not hold may take what the balance leaves over. */
  lemma NewAddressBudget(votes: Votes, address: string, balance: nat)
    requires WellFormed(votes) && address !in Keys(votes)
    ensures Budget(votes, address, balance) == balance - Spent(votes)
  {
    SpentExceptAbsent(votes, address);
  }

  /** With a negative budget every input stores the budget. */
  lemma StoredOverBudget(votes: Votes, address: string, input: VoteInput, balance: nat)
    requires Budget(votes, address, balance) < 0
    ensures Stored(votes, address, input, balance) == Num(Budget(votes, address, balance))
  {
    assert Value(Normalize(input)) >= 0;
  }
}
