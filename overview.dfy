/**
 * The state of the vote page: whether the user is voting, whether votes
 * were just submitted, the allocation, the search text and the dialog on
 * top, and the handlers that move between these states.
 */
module Overview {
  import opened Wrappers
  import opened Text
  import opened JsObject
  import opened JsNumber
  import opened Allocation

  /** The dialog over the page. */
  datatype Modal = NoModal | ThanksModal | ErrorModal

  /** What the bar above the candidate list shows. */
  datatype Bar = OpenWallet | Thanks | NeedBalance | Controls | StartButton

  /** The votes sent to the network: every address with `parseInt` of its entry (NaN as None). */
  type Ballot = Obj<Option<int>>

  /** The text an entry turns into when `parseInt` reads it: `""`, or the number in decimal. */
  function EntryText(e: Entry): string
  {
    match e
    case Empty => ""
    case Num(n) => DecimalString(n)
  }

  /** The number the ballot sends for an entry; an empty entry has none (NaN). */
  function BallotEntry(e: Entry): Option<int>
  {
    match e
    case Empty => None
    case Num(n) => Some(n)
  }

  /**
   * Parsing an entry's text as a decimal integer gives the ballot's number,
   * and NaN for an empty entry.
   */
  lemma BallotEntryIsParseInt(e: Entry)
    ensures ParseInt(EntryText(e)) == BallotEntry(e)
  {
    if e.Num? {
      ParseDecimalString(e.n);
    }
  }

  /** An entry counts in the votes spent with the number the ballot sends for it, or 0 for NaN. */
  lemma SpentCountsBallotEntries(e: Entry)
    ensures Value(e) == match ParseInt(EntryText(e)) case None => 0 case Some(n) => n
  {
    BallotEntryIsParseInt(e);
  }

  /**
   * The loop of `submitVotes` that copies every key of `votes`, in order,
   * into `witnessVotes` with its parsed value.
   */
  method BuildBallot(votes: Votes) returns (ballot: Ballot)
    requires WellFormed(votes)
    ensures |ballot| == |votes|
    ensures forall i :: 0 <= i < |votes| ==>
      ballot[i] == Property(votes[i].key, BallotEntry(votes[i].value))
  {
    ballot := [];
    var keys := Keys(votes);
    for i := 0 to |keys|
      invariant |ballot| == i
      invariant forall j :: 0 <= j < i ==>
        ballot[j] == Property(votes[j].key, BallotEntry(votes[j].value))
    {
      var address := keys[i];
      GetAt(votes, i);
      var entry := Get(votes, address).value;
      BallotStep(votes, ballot, i);
      ballot := Put(ballot, address, BallotEntry(entry));
    }
  }

  /** One turn of the ballot loop: the next key is new, so the assignment appends it. */
  lemma BallotStep(votes: Votes, ballot: Ballot, i: nat)
    requires WellFormed(votes) && i < |votes| && |ballot| == i
    requires forall j :: 0 <= j < i ==>
      ballot[j] == Property(votes[j].key, BallotEntry(votes[j].value))
    ensures Put(ballot, votes[i].key, BallotEntry(votes[i].value))
         == ballot + [Property(votes[i].key, BallotEntry(votes[i].value))]
  {
    forall j | 0 <= j < i
      ensures Keys(ballot)[j] != votes[i].key
    {
      assert votes[j].key != votes[i].key;
    }
  }

  /** The ballot maps each address of the allocation, and no other, to the parsed entry. */
  lemma BallotLookup(votes: Votes, ballot: Ballot, address: string)
    requires WellFormed(votes)
    requires |ballot| == |votes|
    requires forall i :: 0 <= i < |votes| ==>
      ballot[i] == Property(votes[i].key, BallotEntry(votes[i].value))
    ensures Keys(ballot) == Keys(votes) && WellFormed(ballot)
    ensures Get(ballot, address) == match Get(votes, address)
      case None => None
      case Some(e) => Some(BallotEntry(e))
  {
    assert Keys(ballot) == Keys(votes);
    assert WellFormed(ballot) by {
      forall i, j | 0 <= i < j < |ballot|
        ensures ballot[i].key != ballot[j].key
      {
        assert votes[i].key != votes[j].key;
      }
    }
    if address in Keys(votes) {
      var i :| 0 <= i < |votes| && votes[i].key == address;
      GetAt(votes, i);
      GetAt(ballot, i);
    }
  }

  /** Which bar the page shows above the candidate list. */
  function VotingBar(loggedIn: bool, votesSubmitted: bool, votingEnabled: bool, balance: nat): (r: Bar)
    ensures r == OpenWallet <==> !loggedIn
    ensures r == Thanks <==> loggedIn && votesSubmitted
    ensures r == NeedBalance <==> loggedIn && !votesSubmitted && balance == 0
    ensures r == Controls <==> loggedIn && !votesSubmitted && balance > 0 && votingEnabled
    ensures r == StartButton <==> loggedIn && !votesSubmitted && balance > 0 && !votingEnabled
  {
    if !loggedIn then OpenWallet
    else if votesSubmitted then Thanks
    else if balance <= 0 then NeedBalance
    else if votingEnabled then Controls
    else StartButton
  }

  class VoteOverview {
    var votingEnabled: bool
    var votesSubmitted: bool
    var votes: Votes
    var searchCriteria: string
    var modal: Modal

    /** The allocation is a JavaScript object: no key occurs twice. */
    ghost predicate Valid()
      reads this
    {
      WellFormed(votes)
    }

    /** The bar for the current state. */
    function Bar(loggedIn: bool, balance: nat): Bar
      reads this
    {
      VotingBar(loggedIn, votesSubmitted, votingEnabled, balance)
    }

    constructor()
      ensures Valid()
      ensures !votingEnabled && !votesSubmitted
      ensures votes == [] && searchCriteria == "" && modal == NoModal
    {
      votingEnabled := false;
      votesSubmitted := false;
      votes := [];
      searchCriteria := "";
      modal := NoModal;
    }

    /**
     * The `setVote` handler: normalise the input, clamp it to
     * what is available plus what the address holds, and write it.
     */
    method SetVote(address: string, input: VoteInput, balance: nat)
      requires Valid()
      modifies this
      ensures Valid()
      ensures votes == AfterSetVote(old(votes), address, input, balance)
      ensures Get(votes, address) == Some(Stored(old(votes), address, input, balance))
      ensures forall k :: k != address ==> Get(votes, k) == Get(old(votes), k)
      ensures Spent(votes) <= balance
      ensures votingEnabled == old(votingEnabled) && votesSubmitted == old(votesSubmitted)
      ensures searchCriteria == old(searchCriteria) && modal == old(modal)
    {
      ghost var before := votes;
      var numberOfVotes := Normalize(input);
      var status := GetVoteStatus(votes, balance);
      var votesAvailable := status.votesAvailable + CurrentValue(votes, address);
      if Value(numberOfVotes) > votesAvailable {
        numberOfVotes := Num(votesAvailable);
      }
      assert votesAvailable == Budget(before, address, balance);
      assert numberOfVotes == Stored(before, address, input, balance);
      SetVoteWithinBalance(before, address, input, balance);
      votes := Put(votes, address, numberOfVotes);
    }

    /** The `enableVoting` handler: enters voting mode. */
    method EnableVoting()
      modifies this
      ensures votingEnabled
      ensures votesSubmitted == old(votesSubmitted) && votes == old(votes)
      ensures searchCriteria == old(searchCriteria) && modal == old(modal)
    {
      votingEnabled := true;
    }

    /** The `loadCurrentVotes` handler, once the account's votes have arrived. */
    method LoadCurrentVotes(loaded: Votes)
      requires WellFormed(loaded)
      modifies this
      ensures Valid() && votes == loaded
      ensures votingEnabled == old(votingEnabled) && votesSubmitted == old(votesSubmitted)
      ensures searchCriteria == old(searchCriteria) && modal == old(modal)
    {
      votes := loaded;
    }

    /** The `onSearchChange` handler: the search text is kept trimmed. */
    method OnSearchChange(text: string)
      modifies this
      ensures searchCriteria == Trim(text)
      ensures votingEnabled == old(votingEnabled) && votesSubmitted == old(votesSubmitted)
      ensures votes == old(votes) && modal == old(modal)
    {
      searchCriteria := Trim(text);
    }

    /** The `resetVotes` handler: clears the allocation and nothing else. */
    method ResetVotes()
      modifies this
      ensures Valid() && votes == [] && Spent(votes) == 0
      ensures votingEnabled == old(votingEnabled) && votesSubmitted == old(votesSubmitted)
      ensures searchCriteria == old(searchCriteria) && modal == old(modal)
    {
      votes := [];
    }

    /** The `cancelVotes` handler: leaves voting and clears the search; the allocation stays. */
    method CancelVotes()
      modifies this
      ensures !votingEnabled && searchCriteria == ""
      ensures votes == old(votes) && votesSubmitted == old(votesSubmitted) && modal == old(modal)
      ensures forall loggedIn, balance :: Bar(loggedIn, balance) != Controls
    {
      votingEnabled := false;
      searchCriteria := "";
    }

    /** The `hideModal` handler: closes the dialog. */
    method HideModal()
      modifies this
      ensures modal == NoModal
      ensures votingEnabled == old(votingEnabled) && votesSubmitted == old(votesSubmitted)
      ensures votes == old(votes) && searchCriteria == old(searchCriteria)
    {
      modal := NoModal;
    }

    /**
     * The `submitVotes` handler: builds the ballot from the allocation and, given the
     * network's answer, shows the thank-you dialog and leaves voting, or
     * shows the error dialog and changes nothing else.
     */
    method SubmitVotes(success: bool) returns (ballot: Ballot)
      requires Valid()
      modifies this
      ensures Valid() && votes == old(votes) && searchCriteria == old(searchCriteria)
      ensures Keys(ballot) == Keys(votes) && WellFormed(ballot)
      ensures forall address :: Get(ballot, address) == match Get(votes, address)
        case None => None
        case Some(e) => Some(BallotEntry(e))
      ensures success ==> votesSubmitted && !votingEnabled && modal == ThanksModal
      ensures success ==> forall balance :: Bar(true, balance) == Thanks
      ensures !success ==> votesSubmitted == old(votesSubmitted) && votingEnabled == old(votingEnabled)
      ensures !success ==> modal == ErrorModal
    {
      ballot := BuildBallot(votes);
      BallotLookup(votes, ballot, "");
      forall address
        ensures Get(ballot, address) == match Get(votes, address)
          case None => None
          case Some(e) => Some(BallotEntry(e))
      {
        BallotLookup(votes, ballot, address);
      }
      if success {
        votesSubmitted := true;
        votingEnabled := false;
        modal := ThanksModal;
      } else {
        modal := ErrorModal;
      }
    }

    /** The timer set by a successful submit: five seconds later the thanks notice goes away. */
    method SubmittedNoticeExpires()
      modifies this
      ensures !votesSubmitted
      ensures votingEnabled == old(votingEnabled) && votes == old(votes)
      ensures searchCriteria == old(searchCriteria) && modal == old(modal)
    {
      votesSubmitted := false;
    }
  }
}
