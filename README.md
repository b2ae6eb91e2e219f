# Vote allocation of the TRON super-representative voting page

This project models the vote-allocation core of the `VoteOverview` component of the
tronscan frontend, and proves properties of that model. The component is the page on
which an account spreads its frozen balance as votes over the super-representative
candidates. The model covers the following.

- **The allocation** (`votes`) is a JavaScript object from candidate address to entry.
  Each entry is `""` or a number. `setVote` parses what the user typed, or the number a
  -/+ button computed. It turns empty or non-numeric input into `""` and negative numbers
  into 0. It then lowers the value to the votes still available plus what the address
  already holds, and writes that one key in place. The module is `Allocation`, on top of
  `JsObject` (an object as its ordered list of properties) and `JsNumber` (`parseInt` and
  `String` on integers).
- **The status** (`getVoteStatus`) is the votes spent, the votes available, the
  "all spent" flag and the four-way status message.
- **The page state** is the class `Overview.VoteOverview`. It holds the flags
  `votingEnabled` and `votesSubmitted`, the allocation, the search text and the dialog.
  Its handlers are `enableVoting`, `loadCurrentVotes`, `onSearchChange`, `resetVotes`,
  `cancelVotes`, `hideModal`, `submitVotes` and the timer that ends the thank-you notice.
  The module also holds the ballot loop of `submitVotes` and the choice of bar the page
  shows.
- **The candidate list** (`Ranking`) has four parts:
  - the stable sort by descending votes, with `rank` set to the position;
  - the case-insensitive search on url or name (using `Text`, which models
    `toLowerCase`, lodash `trim` and `indexOf`);
  - the vote total and the biggest gainer of the cycle;
  - the sign classification of `VoteChange`.

The model makes these choices:

- The wallet's balance is a natural-number parameter.
- The answer of the network to a submit is a boolean parameter.
- The votes loaded from the account are a parameter of `LoadCurrentVotes`.
- Entries are `Empty` or `Num(n)` for any integer `n`.

Behaviour of the code worth knowing:

- `cancelVotes` keeps the allocation. It only leaves voting mode and clears the search.
- `submitVotes` has no guard against a second submit while the first is in flight.
- Entries can be negative. Votes loaded from the account can exceed the balance, and then
  `setVote` stores the negative budget (`LoadedOverspendStoresNegative`).
- `spendAll` is `votesSpend > 0 && votesAvailable == 0`, and the status is "all spent"
  exactly when the balance is positive and fully spent. The two coincide
  (`GetVoteStatus`).

## Model

| member | source | states |
|---|---|---|
| Allocation.GetVoteStatus | src/components/voting/VoteOverview.js:93-128 | spent is the sum of the entries, with empty counting 0; available plus spent is the balance; `spendAll` holds exactly when the state is "all spent"; the state is "no balance" exactly when the balance is 0, and otherwise "remaining", "all spent" or "overspent" by the sign of balance − spent |
| Allocation.Normalize | src/components/voting/VoteOverview.js:70-77 | the normalised input is empty exactly when parsing gives NaN (or the text is empty); a number is never negative; any parsed number n, typed or from a button, becomes max(n, 0) |
| Allocation.Clamp | src/components/voting/VoteOverview.js:82-84 | the result never exceeds the budget; an entry within the budget is kept, and a larger one is replaced by the budget |
| Allocation.Stored | src/components/voting/VoteOverview.js:67-84 | the stored entry is at most the budget; unparseable input stores empty when the budget is ≥ 0 and the budget itself otherwise; a number p stores min(max(p, 0), budget) |
| Allocation.Spent | src/components/voting/VoteOverview.js:103 | the votes spent are never negative when no entry is negative |
| Allocation.Budget | src/components/voting/VoteOverview.js:79-80 | in a well-formed object, available plus the address's own entry is the balance minus what every other address holds |
| Allocation.AfterSetVote | src/components/voting/VoteOverview.js:67-86 | after `setVote` the address reads the stored entry and every other key reads as before; distinct keys stay distinct |
| Allocation.SpentSplit | src/components/voting/VoteOverview.js:103 | the votes spent are the address's entry plus the votes on all other addresses |
| Allocation.SpentExceptPut | src/components/voting/VoteOverview.js:86 | writing one address leaves the votes on every other address unchanged |
| Allocation.SetVoteWithinBalance | src/components/voting/VoteOverview.js:79-86 | after any `setVote` the votes spent are the others' votes plus the stored entry, never exceed the balance, and the status is never "overspent" |
| Allocation.SetVoteIdempotent | src/components/voting/VoteOverview.js:67-91 | entering the same input twice gives the same allocation as entering it once |
| Allocation.LoadedOverspendStoresNegative | src/components/voting/VoteOverview.js:79-86 | when loaded votes exceed the balance, `setVote` on a new address appends the negative budget, balance − spent, whatever the input |
| Allocation.LoadedOverspendRestoresBalance | src/components/voting/VoteOverview.js:79-86 | in that case the votes spent afterwards are exactly the balance |
| Allocation.VoteSize | src/components/voting/VoteOverview.js:366 | `ceil(balance / 20)`: twenty steps cover the balance and fewer than twenty extra votes; at least 1 when the balance is positive |
| Allocation.PressPlus | src/components/voting/VoteOverview.js:543 | a press of "+" changes no other address and never raises the address above its budget |
| Allocation.PressPlusOnce | src/components/voting/VoteOverview.js:543 | one press of "+" raises the address by one step, to at least 0 (a negative entry left by an overspent load that stays negative becomes 0) and at most its budget, and leaves the budget unchanged |
| Allocation.PressMinusStopsAtZero | src/components/voting/VoteOverview.js:532 | one press of "−" lowers the address by one step, but not below 0 and not above its budget |
| JsObject.Get | src/components/voting/VoteOverview.js:80 | `votes[address]` is absent exactly when the address is not a key, and otherwise is the value of a property with that key |
| JsObject.Put | src/components/voting/VoteOverview.js:86 | `votes[address] = v` makes the address read v and every other key read as before; an existing key keeps its place, a new one is appended; distinct keys stay distinct |
| JsObject.GetAt | src/components/voting/VoteOverview.js:299-300 | in an object with distinct keys, looking up the i-th key gives the i-th value |
| JsNumber.ParseInt | src/components/voting/VoteOverview.js:71 | `parseInt` gives a number exactly when, after leading white space, the text starts with a digit or with a sign followed by a digit; a leading "-" gives a number ≤ 0 and otherwise the number is ≥ 0 |
| JsNumber.ParseDecimalString | src/components/voting/VoteOverview.js:71 | `parseInt` of the decimal text of an integer gives that integer back |
| JsNumber.ParseNegative | src/components/voting/VoteOverview.js:71 | after leading white space, a "-" followed by digits reads as the negated value of those digits, and what follows is ignored |
| JsNumber.ParseStopsAtNonDigit | src/components/voting/VoteOverview.js:71-72 | after leading white space and an optional "+", `parseInt` reads the leading digits and ignores what follows them |
| Text.Trim | src/components/voting/VoteOverview.js:209-213 | the result neither starts nor ends with white space, and it is the text after the leading white space with only white space cut from the end |
| Text.Lower | src/components/voting/VoteOverview.js:349 | lowering keeps the length, maps each upper-case letter to its lower-case letter, and keeps every other character |
| Text.LowerIdempotent | src/components/voting/VoteOverview.js:349 | lowering a lowered text changes nothing |
| Text.IndexOf | src/components/voting/VoteOverview.js:349 | `indexOf` is −1 exactly when the needle does not occur, and otherwise is its first occurrence |
| Ranking.SortByDesc | src/components/voting/VoteOverview.js:340 | the sorted list is a permutation of the input ordered by non-increasing key |
| Ranking.InsertSorted | src/components/voting/VoteOverview.js:340 | inserting into a sorted list keeps it sorted |
| Ranking.SortByDescStable | src/components/voting/VoteOverview.js:340 | the sort is stable: the elements with any one key keep their input order |
| Ranking.Rank | src/components/voting/VoteOverview.js:340-343 | the ranked list is a permutation of the candidates, sorted by non-increasing votes, with `rank` equal to the position |
| Ranking.RankStable | src/components/voting/VoteOverview.js:340-343 | candidates with equal votes keep the order of the vote list |
| Ranking.FieldMatches | src/components/voting/VoteOverview.js:349 | a field matches exactly when its lowered, trimmed text contains the lowered search text |
| Ranking.Matches | src/components/voting/VoteOverview.js:348-358 | a candidate matches exactly when its url matches, or its name is non-empty and matches |
| Ranking.MatchesIgnoresCase | src/components/voting/VoteOverview.js:349-353 | the search ignores case: lowering the search text, or the candidate's url and name, does not change whether it matches |
| Ranking.KeepMatching | src/components/voting/VoteOverview.js:348-358 | the filtered list is a subsequence of the ranked list and holds exactly its matching candidates, each as many times as in the ranked list |
| Ranking.FilterCandidates | src/components/voting/VoteOverview.js:345-359 | `filteredCandidates` is a subsequence of the ranked list holding exactly the matching candidates; an empty search gives the ranked list itself, and any other search keeps each matching candidate as many times as it occurs |
| Ranking.KeepMatchingEmpty | src/components/voting/VoteOverview.js:345-347 | filtering on the empty text would keep every candidate in order, so the empty-search shortcut agrees with the filter |
| Ranking.FilterKeepsRankOrder | src/components/voting/VoteOverview.js:345-359 | the ranks in the filtered list strictly increase |
| Ranking.TotalVotesOfRank | src/components/voting/VoteOverview.js:361 | `totalVotes` over the ranked list equals the sum of the votes of the candidates |
| Ranking.BiggestGainer | src/components/voting/VoteOverview.js:363 | there is a biggest gainer exactly when the list is non-empty; it is in the list, and no candidate gained more in the cycle |
| Ranking.BiggestGainerIsFirst | src/components/voting/VoteOverview.js:363 | of several candidates with the largest gain, the earliest in the ranked list is chosen |
| Ranking.ClassifyChange | src/components/voting/VoteOverview.js:25-48 | `VoteChange` shows a gain exactly for a positive value, a loss exactly for a negative one, and "-" for 0 |
| Overview.BallotEntryIsParseInt | src/components/voting/VoteOverview.js:300 | `parseInt` of an entry gives its number, and NaN for an empty entry |
| Overview.SpentCountsBallotEntries | src/components/voting/VoteOverview.js:103 | the sum of spent votes counts an entry as its parsed number, and as 0 when parsing gives NaN |
| Overview.BuildBallot | src/components/voting/VoteOverview.js:297-301 | the ballot has one property per key of the allocation, in the same order, each with the parsed entry |
| Overview.BallotLookup | src/components/voting/VoteOverview.js:297-301 | the ballot has the allocation's keys and no others, and maps each to its parsed entry |
| Overview.VotingBar | src/components/voting/VoteOverview.js:215-272 | the bar shows, in priority order: "open wallet" when logged out, the thanks notice after a submit, the balance warning at 0, the voting controls while voting, and otherwise the start button |
| Overview.VoteOverview.constructor | src/components/voting/VoteOverview.js:53-65 | the page starts outside voting mode, not submitted, with an empty allocation, an empty search and no dialog |
| Overview.VoteOverview.SetVote | src/components/voting/VoteOverview.js:67-91 | the new allocation is `setVote`'s, the address holds the stored entry, every other key is unchanged, the spent votes do not exceed the balance, and no other field changes |
| Overview.VoteOverview.EnableVoting | src/components/voting/VoteOverview.js:130-134 | voting mode is on and nothing else changes |
| Overview.VoteOverview.LoadCurrentVotes | src/components/voting/VoteOverview.js:167-173 | the allocation is replaced by the account's votes and nothing else changes |
| Overview.VoteOverview.OnSearchChange | src/components/voting/VoteOverview.js:209-213 | the search text is the trimmed input and nothing else changes |
| Overview.VoteOverview.ResetVotes | src/components/voting/VoteOverview.js:274-278 | the allocation is empty, so nothing is spent, and the flags, search and dialog are unchanged |
| Overview.VoteOverview.CancelVotes | src/components/voting/VoteOverview.js:280-285 | voting mode is off and the search is empty; the allocation, the submitted flag and the dialog are unchanged; the voting controls are no longer shown |
| Overview.VoteOverview.HideModal | src/components/voting/VoteOverview.js:287-291 | the dialog is closed and nothing else changes |
| Overview.VoteOverview.SubmitVotes | src/components/voting/VoteOverview.js:293-328 | the ballot has exactly the allocation's keys, each with its parsed entry; on success the page is submitted, leaves voting mode, shows the thanks dialog and the thanks bar; on failure it shows the error dialog and the flags are unchanged; the allocation and search never change |
| Overview.VoteOverview.SubmittedNoticeExpires | src/components/voting/VoteOverview.js:307 | five seconds after a successful submit the submitted flag is cleared and nothing else changes |

## Left out

- Rendering, JSX markup, the sticky header, the countdown, the dialogs' content, colours and translations are presentation only. `renderVoteStatus` only picks a message per status, and `VoteState` models that status.
- The network calls (`Client.getAccountVotes`, `Client.voteForWitnesses`) and the Redux actions (`reloadWallet`, `loadVoteList`, `loadVoteTimer`) are foreign asynchronous I/O. The votes they load and the success they report are parameters.
- The timers are left out except the one that clears the thanks notice (`SubmittedNoticeExpires`). The 1200 ms wallet reload is foreign I/O.
- A second submit while one is in flight is not modelled. Each method runs to completion, with the network's answer given as a parameter.
- The balance comes from `frozenTrx / ONE_TRX`, which can be fractional. The model takes the balance as a natural number.
- `votePercentage` and the progress-bar percentages are floating point, and divide by a possibly-zero total.
- `loading`, `viewStats` and `colors` only control what is displayed.
- `Text.Lower`, `Text.Trim` and `JsNumber.ParseInt` work on ASCII letters, digits and the common white-space characters. Unicode case mapping and the full white-space class are not modelled.
- JsNumber.DecimalString: JavaScript's `String` writes numbers of absolute value 10^21 and above in exponent notation, so `parseInt` of such a number reads back only its leading digits; `DecimalString` always writes every digit.
- JsNumber.ParseInt: returns exact integers. JavaScript numbers are doubles, exact only up to 2^53, so `parseInt` of a longer digit string is rounded; the model assumes the balances and votes the page handles stay below 2^53.
- Allocation entries are `""` or an integer. String-valued entries from the network, and their concatenation by `+`, are not modelled.
- `JsObject` keeps keys in insertion order. JavaScript lists integer-like keys first, and addresses are never integer-like.
- Allocation.PressPlusOnce: states one press of "+"; the effect of k presses follows by repeating it, but no lemma states it for k presses.
