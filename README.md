# Flexword core in Dafny

Flexword is a five-letter word game with a wager. Before a round, the player picks a **contract**
tier, which fixes how many guesses are allowed and the payout multiplier. The round then plays out:
- **The stake:** every round starts with a pot of 10000.
- **Overtime:** each miss at or beyond the contracted guess count floor-halves the pot.
- **Payout:** a win within the contract pays `floor(pot × multiplier)`. An overtime win pays the decayed pot.
- **Ledger:** the server keeps each user's bank, their solved words and a global leaderboard in Redis.

This project models, and proves properties of:

- **Scoring and the keyboard merge** (`scoring.dfy`, `game_screen.dfy`). The two-pass tile scoring of
  `useFlexword.ts` and its copy in `GameScreen.tsx` both work in place on arrays. Both are proved equal
  to one declarative scoring function, `Score`. The letter-keyboard merge loop is proved to compute
  the unique map described by `IsMergeOf`.
- **The session state machine** (`flexword.dfy`, class `Flexword.Session`). Its fields are the state
  of the `useFlexword` hook. Each handler is a method whose new state is given by a transition function
  on `Snapshot` values (`KeyOutcome`, `Judged`, `WinOutcome`, `MissOutcome`, ...). The properties of the
  game are lemmas about those functions. The pot and payout arithmetic lives in `economy.dfy`.
- **The contract tables** (`client_types.dfy`, `shared_types.dfy`).
- **The ledger** (`redis.dfy`, `redis_service.dfy`):
  - `Redis.RedisStore` is an in-memory store class with strings, sets and sorted sets.
  - Sorted sets are kept in descending order, which is the order `ZRANGE … REV` reads.
  - The functions of `redis-service.ts` are methods over that store.
  - `decimal.dfy` models `Number.prototype.toString` and `parseInt(…, 10)` for integers, including
    their round trip.

Inputs the model cannot see are parameters:
- **The word list:** `getRandomWord` becomes a sequence of draws, and `isValidWord` becomes a function value.
- **Saving the game:** the outcome of the save-game request is a `Settlement` value, either the
  returned bank or a failure.

## Model

| member | source | states |
|---|---|---|
| ClientTypes.Contracts | src/client/types.ts:26-53 | five tiers with distinct ids; every tier allows at least 2 guesses and multiplies by at least 1.0; down the menu, guesses strictly fall and multipliers strictly rise |
| ClientTypes.ContractTable | src/client/types.ts:24-53 | the word length is 5, and the tiers are safe, standard, risky, hard and extreme with 6, 5, 4, 3 and 2 guesses and multipliers 1.1, 1.5, 3.0, 5.0 and 10.0 |
| SharedTypes.Contracts | src/shared/types/types.ts:36-77 | the shared copy: five tiers with distinct ids, at least 2 guesses and a multiplier of at least 1.0 each, guesses strictly falling and multipliers strictly rising |
| SharedTypes.AgreesWithClientTable | src/shared/types/types.ts:33-77 | the shared and client tables have the same length and agree tier by tier on id, guesses and multiplier, and on the word length |
| Text.UpperChar | src/client/hooks/useFlexword.ts:96 | lower-case ASCII letters map to upper case and every other character is unchanged |
| Text.ToUpper | src/client/hooks/useFlexword.ts:61 | keeps the length and upper-cases each character in place |
| Text.ToUpperIdempotent | src/server/core/redis-service.ts:56 | upper-casing twice equals upper-casing once, so words stored upper-case compare equal after `toUpperCase` |
| Decimal.IntToStringDenotes | src/server/core/redis-service.ts:46 | `balance.toString()` writes a minus sign exactly for a negative balance, then only digits, whose value is the balance's magnitude |
| Decimal.NatToString | src/server/core/redis-service.ts:46 | a natural number renders as a non-empty digit string with no leading zero (except "0") |
| Decimal.LeadingDigits | src/server/core/redis-service.ts:24 | the longest digit prefix of a string: every character is a digit and the next character is not |
| Decimal.TrimStart | src/server/core/redis-service.ts:24 | the result is no longer than the input and does not start with white space (JavaScript's white space: tab, line feed, vertical tab, form feed, carriage return, the byte-order mark, the Zs space separators and the line terminators) |
| Decimal.TrimStartStrips | src/server/core/redis-service.ts:24 | what `TrimStart` removes is a prefix of white space only: the result is the rest of the input, unchanged |
| Decimal.ParseInt | src/server/core/redis-service.ts:24 | `parseInt(s, 10)`: NaN exactly when no digit follows the skipped white space and the optional sign; a number only when the text holds a digit, and a negative one only after a leading minus sign |
| Decimal.ParseIntSkips | src/server/core/redis-service.ts:24 | leading white space before text that does not start with white space is skipped: `parseInt` reads what follows |
| Decimal.ParseSigned | src/server/core/redis-service.ts:24 | after the white space: NaN exactly when no digit follows the optional sign; a negative number only after a minus sign |
| Decimal.ParseSignedReads | src/server/core/redis-service.ts:24 | after the white space, an optional sign, a run of digits and any text not starting with a digit give the digits' value, negated after a minus sign |
| Decimal.ParseIntOfIntToString | src/server/core/redis-service.ts:24-46 | `parseInt(n.toString())` gives back n for every integer n, so a balance written with `setUserBank` reads back unchanged |
| Economy.PotAfterMiss | src/client/hooks/useFlexword.ts:215-223 | below the contract's guesses the pot is unchanged; from the contract's guesses on it is floor-halved, never negative and never larger |
| Economy.Winnings | src/client/hooks/useFlexword.ts:166-173 | a win within the contract pays floor(pot × multiplier); an overtime win pays the pot exactly |
| Economy.MultiplierAtLeastOne | src/client/hooks/useFlexword.ts:168-169 | with a multiplier of at least 1.0 the payout is never below the pot |
| Economy.Pow2 | src/client/hooks/useFlexword.ts:221 | powers of two are positive |
| Economy.HalveTwice | src/client/hooks/useFlexword.ts:221 | halving floor(x / d) once more equals floor(x / 2d), the step of the closed form |
| Economy.PotClosedForm | src/client/hooks/useFlexword.ts:215-223 | after n misses the pot is floor(10000 / 2^max(0, n − guesses + 1)) |
| Economy.PotBottomsOutAtZero | src/client/hooks/useFlexword.ts:219-222 | in overtime a pot of 1 halves to 0, and a pot of 0 stays at 0 |
| Economy.RiskyContractPayouts | src/client/hooks/useFlexword.ts:166-173 | on the RISKY tier (4 guesses, ×3.0), a win on guess 3 pays 30000; a win on guess 5, after one halving, pays 5000 |
| Scoring.Score | src/client/hooks/useFlexword.ts:235-260 | one status per position; a position is correct exactly when the letters agree; no tile is left initial |
| Scoring.CreditMatchesOccurrences | src/client/hooks/useFlexword.ts:249-257 | duplicate letters: for every letter, the tiles not marked absent number min(occurrences in the guess, occurrences in the target) |
| Scoring.MissingLetterIsAbsent | src/client/hooks/useFlexword.ts:252-256 | a guess letter that does not occur in the target is always absent |
| Scoring.ExactGuessAllCorrect | src/client/hooks/useFlexword.ts:241-247 | guessing the target itself marks every tile correct |
| Scoring.SableAgainstSaber | src/client/hooks/useFlexword.ts:235-260 | SABLE against SABER scores correct, correct, correct, absent, present |
| Scoring.ReversedGuess | src/client/hooks/useFlexword.ts:235-260 | ABCDE against EDCBA: only the middle letter is correct and every other letter is present |
| Scoring.IndexOf | src/client/hooks/useFlexword.ts:252 | `indexOf` gives −1 exactly when the letter is absent, and otherwise the first position that holds it |
| Scoring.ScoreForGuess | src/client/hooks/useFlexword.ts:235-260 | the two array passes together compute exactly `Score(guess, target)` |
| Scoring.MarkGreens | src/client/hooks/useFlexword.ts:240-247 | after pass 1 the tiles are the greens, the matched target letters are replaced by `#`, and the matched guess letters by `*` |
| Scoring.MarkYellows | src/client/hooks/useFlexword.ts:249-257 | after pass 2, every tile is the reference status, handing out each unmatched target letter left to right |
| Scoring.MergeOne | src/client/hooks/useFlexword.ts:124-130 | one letter of the merge: a green is never overwritten, a yellow never drops to grey, and otherwise the new status is taken; other keys are unchanged |
| Scoring.MergeBounded | src/client/hooks/useFlexword.ts:121-131 | every attained merge entry is at most any map that dominates both the old keyboard and the guess |
| Scoring.MergeIsDetermined | src/client/hooks/useFlexword.ts:121-131 | at most one map satisfies the merge description: the keyboard result is unique |
| Scoring.MergeFoldIsMerge | src/client/hooks/useFlexword.ts:124-130 | folding the letters in left to right meets the merge description: the domain grows by the guessed letters; other keys keep their status; no key is downgraded; each key ends at least as high as every status scored for it; each value is either the old one or one of those scores |
| Scoring.MergeKeyStatuses | src/client/hooks/useFlexword.ts:121-131 | the merge loop's result satisfies `IsMergeOf`, so it is the unique best keyboard |
| GameScreen.GetStatuses | src/client/components/GameScreen.tsx:178-192 | the history-row copy of the scoring routine computes exactly `Score(word, target)` |
| GameScreen.ExactPass | src/client/components/GameScreen.tsx:183-185 | the first pass: matching positions become correct and their letters are consumed |
| GameScreen.PresentPass | src/client/components/GameScreen.tsx:186-190 | the second pass completes the reference scoring |
| GameScreen.RowAgreesWithHook | src/client/components/GameScreen.tsx:178-192 | the board's history rows and the hook's scoring give identical tiles for every pair of words |
| Flexword.ClassifyKey | src/client/hooks/useFlexword.ts:96-158 | for every key, ignoring case: ENTER exactly when it upper-cases to "ENTER"; erase exactly for "BACKSPACE" or "DEL"; a gap exactly for space or `_`; a letter exactly for a single character that upper-cases to A–Z, which is then the letter typed; every other key is ignored |
| Flexword.Typed | src/client/hooks/useFlexword.ts:149-157 | below five characters the given character is appended after the unchanged buffer; at five the buffer is unchanged; a well-formed buffer stays well formed |
| Flexword.Erased | src/client/hooks/useFlexword.ts:147-148 | the last character is dropped; an empty buffer stays empty |
| Flexword.CheckSubmission | src/client/hooks/useFlexword.ts:102-114 | accepted exactly when the buffer has no gap, has five characters and is on the word list; a gap gives "INCOMPLETE WORD!", else a wrong length gives "TOO SHORT!", else a word off the list gives "NOT ON WORD LIST" |
| Flexword.WarnOutcome | src/client/hooks/useFlexword.ts:137-142 | only the warning flag changes: the miss that brings the count to one below the contract's guesses raises it, no other miss does, and it is never cleared here |
| Flexword.MissOutcome | src/client/hooks/useFlexword.ts:215-223 | only the pot changes: it is kept below the contract's guesses and floor-halved from there on |
| Flexword.WinOutcome | src/client/hooks/useFlexword.ts:163-213 | the pot becomes the winnings and the celebration is shown; a saved game takes the server's bank and records the upper-cased word; a failed save adds the winnings locally; the phase, contract, guesses, buffer, keyboard, warning and message are unchanged |
| Flexword.Judged | src/client/hooks/useFlexword.ts:133-146 | after a recorded guess the buffer is cleared, the phase and guesses are kept, and a miss leaves the bank and the solved words alone |
| Flexword.SubmitOutcome | src/client/hooks/useFlexword.ts:116-146 | an accepted guess is appended to the guesses, the keyboard becomes the merge, and the buffer is cleared |
| Flexword.EnterOutcome | src/client/hooks/useFlexword.ts:98-146 | ENTER never changes the phase; a rejected buffer changes only the error message, which is then non-empty |
| Flexword.KeyOutcome | src/client/hooks/useFlexword.ts:93-158 | every key but ENTER changes only the buffer and clears the message: backspace erases, space types a gap, a letter is typed, any other key leaves the buffer alone |
| Flexword.RejectedSubmitChangesOnlyMessage | src/client/hooks/useFlexword.ts:100-114 | a rejected ENTER leaves guesses, pot, keyboard, buffer and phase alone and sets the message of the first failed check |
| Flexword.AcceptedSubmitAppends | src/client/hooks/useFlexword.ts:116-146 | an accepted ENTER appends exactly the buffer, empties it, clears the message and keeps the phase, even on a win |
| Flexword.MissFollowsClosedForm | src/client/hooks/useFlexword.ts:215-223 | each miss keeps the pot on the closed form floor(10000 / 2^max(0, n − guesses + 1)) |
| Flexword.WinPaysAtLeastPot | src/client/hooks/useFlexword.ts:166-173 | for every tier in the table a win pays at least the pot, and an overtime win pays exactly the pot |
| Flexword.TypeWordAppends | src/client/hooks/useFlexword.ts:154-157 | typing a word that fits into the buffer appends it and changes nothing else |
| Flexword.WinningTwiceCompounds | src/client/hooks/useFlexword.ts:134-135 | as written: on the EXTREME tier a win on guess 1 pays 100000 and keeps the round PLAYING; typing the target again and pressing ENTER pays 1000000 more |
| Flexword.SettledKeyOutcome | src/client/hooks/useFlexword.ts:89-91 | corrected: a won round ignores every key, leaving pot and bank as they are |
| Flexword.WinningEnterWinsRound | src/client/hooks/useFlexword.ts:134-135 | corrected: the winning ENTER wins the round, keeps the phase and pays the winnings once |
| Flexword.WonRoundPaysOnce | src/client/hooks/useFlexword.ts:89-91 | corrected: after a win, no run of keys changes the session, so a round pays out once |
| Flexword.Session.constructor | src/client/hooks/useFlexword.ts:13-30 | the initial state: SETUP, no contract, empty board, bank 0, pot 10000 |
| Flexword.Session.GetUnsolvedWord | src/client/hooks/useFlexword.ts:56-67 | returns the first draw whose upper-cased form is unsolved, or the 51st draw after 50 redraws; every skipped draw was solved |
| Flexword.Session.StartGame | src/client/hooks/useFlexword.ts:70-86 | a fresh PLAYING round: the chosen contract, no guesses, an empty buffer and keyboard, a pot of 10000 and no message; the bank, solved words and flags carry over. The target is the first unsolved draw, or the 51st draw when all 50 before it are solved |
| Flexword.Session.Deal | src/client/hooks/useFlexword.ts:75-81 | sets the contract, the word, the stake and the PLAYING phase, and nothing else |
| Flexword.Session.ClearBoard | src/client/hooks/useFlexword.ts:77-82 | empties the guesses, buffer, keyboard and message, and nothing else |
| Flexword.Session.HandleInput | src/client/hooks/useFlexword.ts:89-161 | outside PLAYING nothing changes; in PLAYING the new state is `KeyOutcome` of the old one, and an accepted guess merges its scored colours into the keyboard (`IsMergeOf`) |
| Flexword.Session.Submit | src/client/hooks/useFlexword.ts:98-146 | the ENTER branch: its new state is `EnterOutcome`, and an accepted guess leaves a keyboard that is the merge of its scored colours |
| Flexword.Session.RecordGuess | src/client/hooks/useFlexword.ts:116-131 | appends the buffer to the guesses and leaves the keyboard as the merge of its scored colours |
| Flexword.Session.Judge | src/client/hooks/useFlexword.ts:133-146 | its new state is `Judged`: a win or a miss (with the warning rule), then an empty buffer |
| Flexword.Session.HandleWin | src/client/hooks/useFlexword.ts:163-213 | its new state is `WinOutcome` |
| Flexword.Session.HandleMiss | src/client/hooks/useFlexword.ts:215-223 | its new state is `MissOutcome` |
| Flexword.Session.CloseCelebration | src/client/hooks/useFlexword.ts:225-228 | hides the celebration and moves to WON, the only transition into WON |
| Flexword.Session.CloseWarning | src/client/hooks/useFlexword.ts:230-232 | hides the warning and changes nothing else |
| Redis.LexAsymmetric | src/server/core/redis-service.ts:100 | no two members each come before the other in the tie-break order |
| Redis.LexTransitive | src/server/core/redis-service.ts:100 | the byte order Redis uses to break score ties is transitive |
| Redis.LexTotal | src/server/core/redis-service.ts:100 | of two distinct members, one comes first |
| Redis.AboveTransitive | src/server/core/redis-service.ts:100 | the reversed sorted-set order (score down, then member down) is transitive |
| Redis.AboveAsymmetric | src/server/core/redis-service.ts:100 | no entry is above an entry that is above it |
| Redis.AboveTotal | src/server/core/redis-service.ts:100 | distinct members are always ordered |
| Redis.RemoveMember | src/server/core/redis-service.ts:88 | drops exactly the member's entries, and a ranked set stays ranked |
| Redis.Insert | src/server/core/redis-service.ts:88 | inserting a new member keeps the set ranked, with members plus the new one |
| Redis.ZAddEntry | src/server/core/redis-service.ts:88 | ZADD: the member then appears exactly once with the new score; the set stays ranked; other members keep their scores |
| Redis.RangeByRank | src/server/core/redis-service.ts:100 | ZRANGE by rank: the result is the run of entries from the clamped start, and position i is in it exactly when it lies between start and stop, both counted from the end when negative |
| Redis.RankOf | src/server/core/redis-service.ts:119 | ZRANK gives the member's index in the order, or nothing when it is not a member |
| Redis.RankIsOrder | src/server/core/redis-service.ts:119 | in a ranked set a lower index means a strictly higher place in the reversed order |
| Redis.StrictIntOfIntToString | src/server/core/redis-service.ts:35-46 | a value written by `setUserBank` is an integer INCRBY accepts |
| Redis.RedisStore.constructor | src/server/core/redis-service.ts:1 | the store starts empty |
| Redis.RedisStore.Get | src/server/core/redis-service.ts:23 | GET: the stored string, or nothing when the key is absent |
| Redis.RedisStore.Set | src/server/core/redis-service.ts:46 | SET replaces one string key and nothing else |
| Redis.RedisStore.IncrBy | src/server/core/redis-service.ts:35 | INCRBY: an absent key counts as 0; a stored integer is increased by the delta and written back as text; a non-integer value is an error and nothing changes |
| Redis.RedisStore.SAdd | src/server/core/redis-service.ts:56 | SADD unions the members into one set key and nothing else |
| Redis.RedisStore.SMembers | src/server/core/redis-service.ts:66 | SMEMBERS: the set's members, empty for an absent key |
| Redis.RedisStore.SIsMember | src/server/core/redis-service.ts:78 | SISMEMBER is true exactly for a member of the set |
| Redis.RedisStore.ZAdd | src/server/core/redis-service.ts:88 | ZADD on one sorted-set key is `ZAddEntry`; nothing else changes |
| Redis.RedisStore.ZRangeRev | src/server/core/redis-service.ts:100 | ZRANGE … BY RANK REV is `RangeByRank` over the descending order |
| Redis.RedisStore.ZRevRank | src/server/core/redis-service.ts:119 | ZRANK … REV is `RankOf` over the descending order |
| RedisService.UserBankKey | src/server/core/redis-service.ts:10 | a user's bank key is `user:`, the username and `:bank` |
| RedisService.UserSolvedKey | src/server/core/redis-service.ts:11 | a user's solved-words key is `user:`, the username and `:solved` |
| RedisService.LeaderboardKey | src/server/core/redis-service.ts:12 | the one leaderboard key, `leaderboard:global`, shared by all users |
| RedisService.KeysNeverCollide | src/server/core/redis-service.ts:10-14 | bank keys end in ":bank" and solved keys in ":solved"; no bank key is a solved key, and neither is the leaderboard key |
| RedisService.KeysAreInjective | src/server/core/redis-service.ts:10-14 | distinct users get distinct bank keys and distinct solved keys |
| RedisService.BankOf | src/server/core/redis-service.ts:21-25 | an absent or empty value reads as 0; a stored integer reads back as itself |
| RedisService.GetUserBank | src/server/core/redis-service.ts:21-25 | reads `BankOf` of the store |
| RedisService.SetUserBank | src/server/core/redis-service.ts:44-47 | writes the decimal text of the balance under the user's bank key and nothing else |
| RedisService.SetThenGetBank | src/server/core/redis-service.ts:21-47 | after `setUserBank(u, b)`, `getUserBank(u)` returns b |
| RedisService.SetBankKeepsOthers | src/server/core/redis-service.ts:44-47 | setting one user's bank leaves every other user's bank alone |
| RedisService.ApplyIncrements | src/server/core/redis-service.ts:33-37 | a run of INCRBYs leaves the stored integer at start + the sum of the amounts, and touches no other key |
| RedisService.UpdateUserBank | src/server/core/redis-service.ts:33-37 | succeeds exactly when the stored value is an integer or absent; then returns old + amount and stores it; only that key changes |
| RedisService.IncrementsAccumulate | src/server/core/redis-service.ts:21-37 | after any run of increments, including none, `getUserBank` reads the starting balance plus their sum |
| RedisService.IncrementsCompose | src/server/core/redis-service.ts:33-37 | one more `updateUserBank` after a run of them is that run with the amount appended, so successive calls form one run |
| RedisService.WithSolvedWord | src/server/core/redis-service.ts:54-57 | the user's solved set gains exactly the upper-cased word |
| RedisService.AddSolvedWord | src/server/core/redis-service.ts:54-57 | SADD of the upper-cased word under the user's solved key; strings and the leaderboard are unchanged |
| RedisService.GetSolvedWords | src/server/core/redis-service.ts:64-68 | the user's solved set |
| RedisService.HasSolvedWord | src/server/core/redis-service.ts:76-79 | true exactly when the upper-cased word is in the user's solved set |
| RedisService.AddSolvedWordIdempotent | src/server/core/redis-service.ts:54-57 | adding the same word twice is the same as adding it once |
| RedisService.SolvedAfterAdd | src/server/core/redis-service.ts:54-79 | after `addSolvedWord(u, w)`, `hasSolvedWord(u, w')` holds for every spelling w' whose upper-case form is that of w |
| RedisService.AddSolvedKeepsOthers | src/server/core/redis-service.ts:54-57 | adding a word for one user leaves every other user's set alone |
| RedisService.SolvedWordsStayUpper | src/server/core/redis-service.ts:54-57 | a solved set holding only upper-case words still does after an add |
| RedisService.UpdateLeaderboard | src/server/core/redis-service.ts:86-89 | ZADD of the user with the new bank on the global board; nothing else changes |
| RedisService.OneEntryPerUser | src/server/core/redis-service.ts:86-89 | after an update the user appears exactly once, with the new bank, the board stays ranked, and every other user keeps their bank |
| RedisService.TopEntries | src/server/core/redis-service.ts:96-110 | at most the board's length, and entry i has rank i + 1 |
| RedisService.TopEntriesArePrefix | src/server/core/redis-service.ts:96-110 | for a positive limit the entries are the first min(limit, size) board entries in order, with rank i + 1 |
| RedisService.GetLeaderboard | src/server/core/redis-service.ts:96-110 | the entries are `TopEntries`; for limit ≥ 1 there are min(limit, size) of them, entry i is board place i with rank i + 1, and banks never increase down the list |
| RedisService.ZeroLimitReturnsWholeBoard | src/server/core/redis-service.ts:100 | as written, limit 0 returns every entry of a non-empty board |
| RedisService.GetLeaderboardCapped | src/server/core/redis-service.ts:96-110 | corrected: a limit of 0 or less gives no entries; a positive limit gives the same entries as `getLeaderboard` |
| RedisService.GetUserRank | src/server/core/redis-service.ts:117-123 | nothing exactly when the user is not on the board; otherwise a 1-based rank whose board place holds the user, and exactly the entries above the user come before it |

## Left out

- Network and timers are left out:
  - `loadUserData` and the save-game `fetch` are not modelled. The save's outcome is the `Settlement` parameter.
  - The 1.5 s and 1.6 s `setTimeout` delays collapse into the win itself.
  - `console` logging is not modelled.
- The word list is left out. `getRandomWord` becomes a sequence of at least 51 draws, assumed to be
  five-letter upper-case words. `isValidWord` becomes a function parameter. `src/client/data/words.ts`
  is not part of this model.
- React scheduling is left out:
  - State updates take effect at once, in program order.
  - Stale closures, such as `handleWin` reading a `potValue` captured at render, are not modelled.
  - Double submission between renders is not modelled.
- `isTransferring` and `lastWinnings` only drive an animation and a display. They are not session
  fields here. `lastWinnings` always equals the pot after a win.
- The `if (!contract) return` guards are modelled, but they are unreachable after `startGame`.
- The LOST phase is declared and never entered. `Session.Valid` states that it never occurs.
- Contract multipliers are exact tenths, not IEEE doubles. Repeated wins (see Findings) can raise
  the pot to at most 1 250 000: HARD, three wins within its budget. For every pot up to 2 000 000,
  `Math.floor(pot * m)` in doubles equals the exact product for all five multipliers, so every pot
  the game can reach floors exactly.
  - From about 2^49 the double product can differ. For example, 562949953421309 * 1.1 floors to
    619244948763440, while the exact product floors to 619244948763439.
- `Text.ToUpper` and `Text.UpperChar` handle ASCII only. JavaScript's `toUpperCase`, as used in
  `key.toUpperCase()`, also maps non-ASCII letters. For example, it turns 'ı' into I and 'ſ' into S,
  which the model classifies as Other keys.
- JavaScript number precision is not modelled:
  - Integers are unbounded.
  - `toString` of numbers at or above 1e21, which JavaScript writes in exponent form, is not modelled.
  - `toString` of fractional numbers is not modelled.
- Redis errors are not modelled beyond INCRBY's rejection of a non-integer value:
  - no WRONGTYPE errors;
  - no 64-bit INCRBY overflow;
  - no connection failures.
- Scores and the bank are integers, not doubles.
- `SMEMBERS` is modelled as a set. Redis returns an array in unspecified order.
- The Redis client's own code and the atomicity of its commands are outside this model.
- The server routes, the React components other than `StaticRow`, and the Tailwind and Vite
  configuration are not part of this model.
- RedisService.GetLeaderboard: takes the limit as an argument; the default `limit = 10` of
  `getLeaderboard` is not modelled.
- Redis.RedisStore.constructor, Get, Set, SAdd, SMembers, SIsMember, ZAdd: these model only the
  Redis commands the service uses, with the key space split by type.

## Findings

| source | as written | input that shows it | evidently intended | confidence | as-written member | corrected member |
|---|---|---|---|---|---|---|
| src/server/core/redis-service.ts:100 | `zRange(key, 0, limit - 1, { by: 'rank', reverse: true })` with limit 0 passes stop = −1, which Redis reads as the last rank | `getLeaderboard(0)` on a non-empty board returns every entry | a limit of 0 (or less) returns no entries | medium, not executed; the client's Leaderboard component requests limit=10 | RedisService.ZeroLimitReturnsWholeBoard | RedisService.GetLeaderboardCapped |
| src/client/hooks/useFlexword.ts:134-135 | a win calls `handleWin` but leaves the phase PLAYING. `GameScreen` never calls `closeCelebration`, and its keydown listener keeps calling `handleInput`, so the target can be entered again | on the EXTREME tier, win on guess 1 (pot 100000), type the target again and press ENTER on guess 2: the multiplier applies again and pays 1000000 | a round pays out once, and a won round takes no more guesses | medium, not executed | Flexword.WinningTwiceCompounds | Flexword.WonRoundPaysOnce |

Three behaviours of the code that the model keeps:
- **The WON phase:** a win does not move the session to WON. It shows the celebration, and only
  `closeCelebration` enters WON.
- **Starting a round:** `startGame` does not reset the warning flag.
- **The shared contract table:** it differs from the client's in labels and colours, and its last
  tier's icon is `skull` instead of `octagon`.
