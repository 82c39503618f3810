# Poker flip: verified model of the game core

This project models the game logic of a small Texas Hold'em "flip" web
game in Dafny. It covers two parts of the repository.

The first part is the hand lifecycle and evaluator in `cards.js`:
- building the 52-card deck and shuffling it in place with Fisher-Yates;
- popping cards to deal two hole cards per seat;
- revealing the flop, turn and river from the end of the deck;
- scoring each seat's two hole cards plus the board with `evaluateSeven`
  (category 0 to 8 plus a kicker list);
- ordering two scores with `compareHands`;
- picking the showdown winner;
- labelling the winning hand with `describeBestHand` and its `straightHigh`;
- the rank texts `getRankText` and `rankNumToText`.

The second part is `escapeHtml` from the form-submission function, which
HTML-escapes a string with five chained global replacements.

Files:
- `cards.dfy` (module `Cards`): cards, the built deck, and the rank texts.
- `deck.dfy` (module `Deck`): the shuffle as an in-place array loop. Its
  random index at each step is an explicit input `choices`.
- `ranklists.dfy` (module `RankLists`): the list operations the evaluators
  use:
  - sorting in descending order;
  - `[...new Set(ranks)].sort((a, b) => a - b)`;
  - `filter`;
  - the "wheel" list, which puts an ace in front as 1;
  - the bridge between "five adjacent steps of one" and "five consecutive
    values present".
- `evaluator.dfy` (module `Evaluator`): `evaluateSeven`, with its counting
  loops, the flush test and `hasStraight`, and `compareHands`. A ghost
  function `Evaluate` is the specification the loops are proved against.
- `describe.dfy` (module `Describe`): `straightHigh` and `describeBestHand`.
  It includes the label texts as the game prints them.
- `table.dfy` (module `Table`): the mutable game state as a class
  `GameState`, with `deck`, `players` and `community` fields. Its methods
  model `dealCard`, `startNewHand`, `nextHand`, `flipStreet` and the winner
  selection of `showdown`. The value-level lemmas beside the class prove
  that cards are conserved and that the winner is unique.
- `escape.dfy` (module `Escape`): `escapeHtml`.

Points where the code behaves differently from what a reader might expect
of a poker game, all modelled as the code does them:
- Dealing is seat by seat. `startNewHand` gives seat p the (2p+1)-th and
  (2p+2)-th cards popped from the deck (cards.js:227). Only the animation in
  `startNewHandAnimated` shows the cards round-robin (cards.js:244-257).
- `evaluateSeven` never enumerates 5-card subsets.
  - Category 8 needs some suit on five cards and some run of five ranks,
    not necessarily the same cards. `LooseStraightFlushScoresEight` and
    `LooseHandHasNoSuitedRun` exhibit such a hand.
  - The kicker list is all the ranks, largest first.
  - The wheel is not scored with high 5.
- `showdown` marks exactly one seat and never reports a chop. When several
  seats tie at the top, the stable ascending sort followed by `reverse()`
  puts the last of them first, so the highest-numbered tied seat wins.
- `describeBestHand` finds straights with `straightHigh`, which looks only
  at the run that ends the wheel list. It can miss a straight that
  `evaluateSeven` found (`DescriberMissesStraight`), and it never labels
  the wheel (`WheelNeverNamed`).

## Model

| member | source | states |
|---|---|---|
| Cards.BuildDeck | cards.js:134-140 | the loops build exactly the suit-major deck: spades, hearts, diamonds, clubs, each with ranks 1 to 13 |
| Cards.FullDeckHasEveryCard | cards.js:134-140 | the deck has 52 cards, and every card sits at position 13·suit + rank − 1 |
| Cards.FullDeckDistinct | cards.js:134-140 | no card is built twice |
| Cards.FullDeckExactlyOnce | cards.js:134-140 | each of the 52 cards occurs exactly once in the built deck |
| Cards.PermutationOfDeckIsDistinct | cards.js:226 | any rearrangement of the built deck repeats no card |
| Cards.NatToString | cards.js:11 | `String(n)` for a natural number is a non-empty string of decimal digits, with no leading zero unless n is 0 |
| Cards.NatToStringRoundTrip | cards.js:11 | reading the decimal text back gives the number |
| Cards.RankTextsAgree | cards.js:6-12 | getRankText and rankNumToText give the same text for every integer, and both map 1 and 14 to "A" |
| Cards.GetRankText | cards.js:6-12 | the card-face text is "A" exactly for 1 and 14, "J", "Q" and "K" exactly for 11, 12 and 13 |
| Cards.RankNumToText | cards.js:344-351 | 1 and 14 are written "A", 11, 12 and 13 "J", "Q" and "K", and 2 to 10 as decimal digits with no leading zero that read back as the rank |
| Cards.RankTextRoundTrip | cards.js:344-351 | every rank 2..14 is written as one rank text ("2".."9", "10", "J", "Q", "K", "A") that reads back as that rank |
| Cards.RankTextInjective | cards.js:6-12 | different card ranks get different texts |
| Deck.FisherYatesPermutes | cards.js:142-148 | for any choices with 0 ≤ j ≤ i, the swap sequence keeps the length and only rearranges its input |
| Deck.Shuffle | cards.js:142-148 | the loop returns the same array; its contents are the specified swap sequence applied to the old contents, which is a permutation of them |
| Table.ShuffledDeck | cards.js:226 | the shuffled built deck has 52 cards, and they are the built cards |
| Table.ShuffleBuiltDeck | cards.js:226 | `shuffle(buildDeck())` yields the shuffled deck of the given choices |
| Table.GameState.constructor | cards.js:124-132 | the initial state has an empty deck, no seats and an empty board |
| Table.GameState.DealCard | cards.js:150-152 | pops the last card of the deck; on an empty deck it returns nothing and leaves the deck empty |
| Table.GameState.StartNewHand | cards.js:221-233 | afterwards seat p holds the (2p+1)-th and (2p+2)-th cards popped from the shuffled deck, the deck keeps its first 52 − 2n cards, there are n seats, and the board is empty |
| Table.GameState.NextHand | cards.js:442-449 | deals a new hand to the given number of seats, or to as many seats as before when that number is 0 (absent) |
| Table.DealtCardAt | cards.js:227 | the j-th hole card, in seat order, is the j-th card popped from the end of the deck |
| Table.DealtCardsFromEnd | cards.js:227 | the hole cards in seat order are the last 2n cards of the deck, reversed |
| Table.DealConservesCards | cards.js:226-228 | after a deal of n seats, the deck has 52 − 2n cards; deck, holes and board together are the 52 built cards, each exactly once |
| Table.GameState.FlipStreet | cards.js:261-276 | the new deck and board are what Flip gives for the old ones, and a board of 0, 3, 4 or 5 cards stays in that set |
| Table.FlipStages | cards.js:262-273 | the board only goes from 0 to 3 cards on "flop", 3 to 4 on "turn" and 4 to 5 on "river", and only with a non-empty deck; any other call changes nothing |
| Table.FlipTakesFromEnd | cards.js:264-273 | a flip keeps a prefix of the deck and appends exactly the removed cards to the board, in the order they are popped |
| Table.FlipKeepsCards | cards.js:261-273 | a flip moves cards from the deck to the board without losing or adding any |
| Table.StreetsInOrder | cards.js:264-273 | flop, turn and river in that order take an empty board to five cards and remove five cards from the deck |
| Table.FlipConserves | cards.js:261-273 | after a flip, deck, holes and board are still the 52 built cards, each exactly once |
| Table.SeatCategoryMatchesReference | cards.js:420-423 | while the 52 cards are conserved, each seat's category at showdown is the one named by its rank counts, flush and straight |
| Table.BestStep | cards.js:425-426 | in the selection, the next seat takes over exactly when compareHands rates it at least as strong as the best so far; the invariant then still holds |
| Table.ShowdownWinnerUnique | cards.js:425-431 | at most one seat is at least as strong as every seat and stronger than every later seat, so the winner is determined |
| Table.GameState.Showdown | cards.js:411-431 | reports "not ready" exactly when the board has fewer than 5 cards; otherwise the winner is at least as strong as every seat and strictly stronger than every higher-numbered seat |
| Evaluator.RanksInRange | cards.js:284 | with the ace read as 14, every rank is between 2 and 14 |
| Evaluator.Tally | cards.js:286-287 | the counting loop yields, for every value, how often it occurs |
| Evaluator.HasFlush | cards.js:283-289 | the result is true exactly when some suit is on at least five cards |
| Evaluator.HasStraight | cards.js:293-304 | on an increasing list, the streak loop is true exactly when five adjacent entries go up by one at each step |
| RankLists.RunOfFiveIffFiveRun | cards.js:293-305 | on a strictly increasing list, five adjacent steps of one happen exactly when five consecutive values are present |
| RankLists.SortedDistinct | cards.js:290 | `[...new Set(ranks)].sort((a, b) => a - b)` is strictly increasing and holds exactly the values of the ranks |
| RankLists.IncreasingUnique | cards.js:290 | a strictly increasing list is determined by its elements |
| RankLists.Without | cards.js:292 | the filter removes exactly the value 14 and keeps the list increasing |
| RankLists.WithWheel | cards.js:292 | the wheel list is strictly increasing and holds the ranks, plus 1 when an ace is present |
| RankLists.SortDesc | cards.js:328 | sorting with `(a, b) => b - a` gives a descending rearrangement of its input |
| RankLists.DescendingUnique | cards.js:328 | two descending lists of the same elements are equal, so the sorted result does not depend on the sort algorithm |
| Evaluator.SortGroups | cards.js:308-311 | the rank groups are sorted by count, then by rank, both descending, and they are a rearrangement of the counter's entries |
| Evaluator.RankEntriesMeaning | cards.js:286 | the counter holds, for each rank present, that rank with its number of occurrences, and no rank twice |
| Evaluator.RankGroupsMeaning | cards.js:308-311 | rankGroups is sorted, names each rank present exactly once, and pairs it with its number of occurrences |
| Evaluator.GroupsSortedUnique | cards.js:308-311 | the comparator leaves no choice: two sorted lists of the same entries with distinct ranks are equal |
| Evaluator.RankGroupsOrderFree | cards.js:308-311 | whatever order the Map lists its entries in, sorting gives the same rankGroups |
| Evaluator.TopGroups | cards.js:312-313 | maxCount is the largest multiplicity, taken by the highest such rank; secondCount bounds every other rank and belongs to a different rank; both are 0 when absent |
| Evaluator.AllDifferentMaxCountOne | cards.js:312 | with no repeated rank, maxCount is 1 |
| Evaluator.CategoryOf | cards.js:316-325 | the category is between 0 and 8 |
| Evaluator.CategoryOfOrder | cards.js:316-325 | the category is 8 exactly when flush and straight both hold; a straight scores at least 4 and a flush at least 5 |
| Evaluator.EvaluateSeven | cards.js:280-330 | the method computes the category and kicker list of the hole cards followed by the board |
| Evaluator.FourOfAKindIff | cards.js:312-318 | with at most four cards of a rank, maxCount is 4 exactly when some rank occurs four times |
| Evaluator.FullHouseIff | cards.js:319-322 | without quads, maxCount = 3 with secondCount ≥ 2 holds exactly when there is a full house, and maxCount = 3 exactly when some rank occurs three times |
| Evaluator.PairsIff | cards.js:323-324 | without trips or quads, both counts 2 hold exactly when two different ranks are paired, and maxCount = 2 exactly when some rank is paired |
| Evaluator.NoRepeatAtMostFour | cards.js:284-287 | cards that hold no card twice hold no rank, with the ace read as 14, more than four times |
| Evaluator.CategoryMatchesReference | cards.js:316-325 | the category equals the reference classification stated with rank multiplicities, the flush test and the straight test |
| Evaluator.FlushAndStraightCategories | cards.js:289-317 | category 8 holds exactly when the cards have a flush and a straight; a straight scores at least 4 and a flush at least 5 |
| Evaluator.WheelIsStraight | cards.js:292-305 | with A, 2, 3, 4 and 5 present, the straight is found through the wheel list |
| Evaluator.KickersAreAllRanks | cards.js:328 | the kicker list is every rank, with the ace as 14, largest first; all entries lie between 2 and 14 |
| Evaluator.LooseStraightFlushScoresEight | cards.js:317 | five hearts 2-4-6-8-10 with spades 3 and 5 score category 8 |
| Evaluator.LooseHandHasNoSuitedRun | cards.js:289-317 | that same hand has no five suited cards in sequence |
| Evaluator.EvaluateIgnoresOrder | cards.js:281 | the evaluation depends only on which cards are held, not on their order |
| Evaluator.CompareHands | cards.js:332-342 | the loop returns the category difference, or else the first kicker difference with missing entries read as 0, or else 0 |
| Evaluator.LexMeaning | cards.js:335-341 | the kicker loop is positive exactly when the first differing kicker is higher, and 0 exactly when all kickers agree |
| Evaluator.CompareMeaning | cards.js:332-342 | compareHands is positive exactly when a has the higher category, or the same category and the first differing kicker higher; it is 0 exactly on equal category and equal kickers |
| Evaluator.CompareAntisymmetric | cards.js:332-342 | compareHands(a, b) = −compareHands(b, a), and compareHands(a, a) = 0 |
| Evaluator.LexPadding | cards.js:335-338 | running the kicker loop past the end of both lists changes nothing |
| Evaluator.CompareTransitive | cards.js:332-342 | compareHands(a, b) ≤ 0 and compareHands(b, c) ≤ 0 imply compareHands(a, c) ≤ 0 |
| Describe.StraightHigh | cards.js:365-382 | on an increasing list, the loop returns the last entry when the final streak reaches five, else 0 |
| Describe.StraightTopMeaning | cards.js:365-382 | a non-zero straightHigh result tops five consecutive values of the list and is its largest entry |
| Describe.WheelList | cards.js:363-364 | the list is strictly increasing and holds the ranks, plus 1 when an ace is present |
| Describe.PairRanks | cards.js:402 | the filter keeps exactly the ranks counted twice, and at least two when both top counts are 2 |
| Describe.TopTwoPairs | cards.js:402 | the slice has two entries |
| Describe.HoleHigh | cards.js:407 | the higher of the two hole ranks, with the ace as 14 |
| Describe.DescribeBestHand | cards.js:353-409 | the method returns the label of the description computed from the hole cards and the board |
| Describe.PickStraight | cards.js:395-408 | case split of the label choice, used by the meaning lemmas below: the straight labels are chosen only with a non-zero straightHigh and the straight label carries it; the high-card label carries the higher hole rank |
| Describe.PickCategory | cards.js:395-405 | when straightHigh and the straight test agree, the kind of label matches the category the evaluator's if-chain picks |
| Describe.PickGroups | cards.js:396-405 | case split of the label choice, used by the meaning lemmas below: the quads, full-house, trips and pair labels carry the ranks of the first two groups under the counts that select them, and two pair carries the top two pair ranks |
| Describe.Label | cards.js:395-408 | each label opens with the name of its category; a high-card label opens with the rank text and ends in "ハイ" |
| Describe.UnlabelLabel | cards.js:395-408 | every label whose ranks lie in 2..14 reads back, kind and ranks, as the description it was made from |
| Describe.LabelInjective | cards.js:395-408 | two descriptions with ranks in 2..14 that get the same label are the same description |
| Describe.DescribedStraightIsStraight | cards.js:383-399 | a straight or straight-flush label implies a straight; the named high tops five consecutive ranks and no rank is above it |
| Describe.WheelNeverNamed | cards.js:372-381 | the A-2-3-4-5 straight is never named: every straight label has high at least 6 |
| Describe.DescribedRanksOccur | cards.js:396-405 | four of a kind, full house, three of a kind and one pair name ranks that occur 4, 3 and ≥2, 3, and 2 times |
| Describe.PairRanksDistinct | cards.js:402 | the pair list repeats no rank |
| Describe.SortedPairs | cards.js:402 | the sorted pair list has at least two entries, and the two taken are its first two |
| Describe.PairListCounts | cards.js:402 | the sorted pair list holds exactly the ranks that occur twice |
| Describe.TopTwoPairsMeaning | cards.js:401-403 | the two ranks taken are different pair ranks, higher first, and no other pair rank lies above the second |
| Describe.TwoPairNamesTopPairs | cards.js:401-404 | a two-pair label names the highest pair and then the next highest |
| Describe.DescriptionMatchesCategory | cards.js:395-405 | when straightHigh and the straight test agree, the label's kind is the evaluator's category |
| Describe.HighCardNamesHigherHole | cards.js:406-408 | the high-card label is the text of the higher hole rank followed by "ハイ" |
| Describe.NothingFoundMeansHighCard | cards.js:406-408 | with no flush, no straight found and no repeated rank, the label is the higher hole rank |
| Describe.NoRunBelowTop | cards.js:381 | an increasing list whose largest entry m lacks m − 1 gets no straight from straightHigh |
| Describe.NoTopRunNoStraightTop | cards.js:381 | if the highest rank has no rank right below it, straightHigh reports no straight, whatever runs lie lower |
| Describe.DescriberMissesStraight | cards.js:381-408 | hole 2 and 3 with board 4, 5, 6, 9, K: the evaluator scores a straight (4), but the description is high card 3 and the label is "3ハイ" |
| Escape.ReplaceAll | netlify/functions/submission-created.js:71 | a global one-character replace keeps the other characters, drops c, and brings in the replacement's characters only |
| Escape.EscapeChar | netlify/functions/submission-created.js:71-75 | each special character becomes an entity that starts with & and ends with ;, and any other character stands for itself |
| Escape.EscapeHtmlIsFlat | netlify/functions/submission-created.js:69-76 | the chained replacements equal escaping each character on its own and concatenating, because & goes first |
| Escape.EscapeHtml | netlify/functions/submission-created.js:69-76 | the five global replaces in source order, & first; the output contains no <, >, " or ' |
| Escape.EscapedKeepsPlainText | netlify/functions/submission-created.js:70-75 | every non-special character of the input appears in the output |
| Escape.AmpersandsStartEntities | netlify/functions/submission-created.js:71-75 | every & in the output begins &amp;, &lt;, &gt;, &quot; or &#39; |
| Escape.PlainTextUnchanged | netlify/functions/submission-created.js:70-75 | text without special characters comes back identical |
| Escape.FlatEscapeLength | netlify/functions/submission-created.js:71-75 | the per-character escape adds 4, 3, 3, 5 and 4 characters for each &, <, >, " and ' |
| Escape.EscapeHtmlLength | netlify/functions/submission-created.js:71-75 | the output is as long as the input plus 4, 3, 3, 5 and 4 for each &, <, >, " and ' |
| Escape.UnescapeEscapeHtml | netlify/functions/submission-created.js:69-76 | decoding the five entities restores the input |
| Escape.EscapeHtmlInjective | netlify/functions/submission-created.js:69-76 | different inputs give different outputs |

## Left out

- The DOM and UI code is not modelled:
  - card elements, flip and touch gestures;
  - `renderSeats`, `renderCommunity`, `setStatus` and `flipAll`;
  - the winner highlight and the zodiac status text of `showdown`.
  Only the winner index is kept.
- `dealRandomHand`, `startNewHandAnimated` and `autoReveal` are not modelled. They are random DOM demos and timer-paced wrappers around the modelled operations.
- `Math.random` becomes the input `choices`. It holds, for each i ≥ 1, the index j with 0 ≤ j ≤ i that the shuffle draws.
- The service worker `sw.js` and the `handler` of the form-submission function are not modelled. They are cache, network, environment and mail-service I/O.
- Escape.EscapeHtml: the input is a string. `String(str)` on other values is not modelled.
- Table.GameState.StartNewHand: the model requires 2·n ≤ 52. With more seats, the source deals `undefined` hole cards.
- Table.GameState.StartNewHand: the default of 6 seats is left to the caller.
- Table.GameState.FlipStreet: the model excludes a flop from a deck of 1 or 2 cards. There the source would push `undefined` onto the board.
- Table.GameState.FlipStreet: the status text naming the street is not modelled.
- Table.GameState.Showdown: the model requires at least one seat once the board is complete. With no seats the source fails on `evals[0]`.
- Table.GameState.Showdown: the sort-then-reverse is modelled by its result, a selection loop that keeps the last maximal seat. Because the sort is stable, reversing it puts the last maximal seat first; together with that argument, `Table.ShowdownWinnerUnique` shows that the loop picks the same seat.
- Table.GameState.StartNewHand: the conservation of cards is stated on the resulting values (`Table.DealConservesCards`), not in the method's own contract.
- Table.GameState.FlipStreet: the conservation of cards is likewise stated on the resulting values (`Table.FlipConserves`), not in the method's own contract.
- Evaluator.EvaluateSeven: the JavaScript `Map` counters are modelled as Dafny maps. Their insertion order is replaced by an ordered key list. `Evaluator.RankGroupsOrderFree` shows that the order does not affect the result.
- The sort calls are modelled by what they produce: an insertion sort with the same ordering. `RankLists.DescendingUnique` and `Evaluator.GroupsSortedUnique` show that the result does not depend on the algorithm.
- The call to `describeBestHand` inside `showdown` is modelled separately, as `Describe.DescribeBestHand`.
