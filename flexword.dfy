/**
 * The game session of the useFlexword hook: the key buffer, submission with its
 * validation order, the keyboard colours, the pot on a miss, and winnings and
 * settlement on a win. The word list is a parameter: the random draws as a sequence
 * and the membership test as a function value. The outcome of saving a win is an input.
 */
module Flexword {
  import opened Wrappers
  import opened ClientTypes
  import opened Text
  import opened Scoring
  import opened Economy

  /** How saving a win ended: the server's new bank, or a failure. */
  datatype Settlement = Saved(newBank: int) | SaveFailed

  datatype KeyKind = Enter | Backspace | Blank | Letter(letter: char) | Other

  datatype Verdict = Rejected(message: string) | Accepted

  /** Every field of the session, as one value. */
  datatype Snapshot = Snapshot(
    phase: GamePhase,
    targetWord: string,
    guesses: seq<string>,
    currentGuess: string,
    contract: Option<ContractTier>,
    bankScore: int,
    potValue: nat,
    errorMessage: string,
    solvedWords: seq<string>,
    showWarning: bool,
    showCelebration: bool,
    keyStatuses: map<char, TileStatus>)

  /** How many extra draws getUnsolvedWord makes before it settles for a solved word. */
  const MaxAttempts: nat := 50

  // ---------------------------------------------------------------- the key buffer

  predicate BufferChar(c: char) { IsLetter(c) || c == '_' }

  predicate BufferOk(s: string) {
    |s| <= WordLength && forall i :: 0 <= i < |s| ==> BufferChar(s[i])
  }

  predicate GuessesOk(guesses: seq<string>) {
    forall i :: 0 <= i < |guesses| ==> IsWord(guesses[i])
  }

  /** What a key means once upper-cased: the comparison ignores the key's case. */
  function ClassifyKey(key: string): (k: KeyKind)
    ensures k == Enter <==> ToUpper(key) == "ENTER"
    ensures k == Backspace <==> ToUpper(key) == "BACKSPACE" || ToUpper(key) == "DEL"
    ensures k == Blank <==> key == " " || key == "_"
    ensures k.Letter? <==> |key| == 1 && IsLetter(UpperChar(key[0]))
    ensures k.Letter? ==> k.letter == UpperChar(key[0])
    ensures k == Other <==>
              && ToUpper(key) != "ENTER" && ToUpper(key) != "BACKSPACE" && ToUpper(key) != "DEL"
              && key != " " && key != "_" && !(|key| == 1 && IsLetter(UpperChar(key[0])))
  {
    var up := ToUpper(key);
    if up == "ENTER" then Enter
    else if up == "BACKSPACE" || up == "DEL" then Backspace
    else if up == " " || up == "_" then Blank
    else if |up| == 1 && IsLetter(up[0]) then Letter(up[0])
    else Other
  }

  /** A character typed into the buffer: appended while there is room, otherwise ignored. */
  function Typed(buffer: string, c: char): (r: string)
    ensures BufferOk(buffer) && BufferChar(c) ==> BufferOk(r)
    ensures |r| == if |buffer| < WordLength then |buffer| + 1 else |buffer|
    ensures r[..|buffer|] == buffer
    ensures |buffer| < WordLength ==> r[|buffer|] == c
    ensures |buffer| >= WordLength ==> r == buffer
  {
    if |buffer| < WordLength then buffer + [c] else buffer
  }

  /** The buffer with its last character removed; empty stays empty. */
  function Erased(buffer: string): (r: string)
    ensures BufferOk(buffer) ==> BufferOk(r)
    ensures |buffer| > 0 ==> r + [buffer[|buffer| - 1]] == buffer
    ensures |buffer| == 0 ==> r == buffer
  {
    if |buffer| == 0 then buffer else buffer[..|buffer| - 1]
  }

  /** The three submission checks, in the order the hook makes them. */
  function CheckSubmission(guess: string, isValidWord: string -> bool): (v: Verdict)
    ensures v.Accepted? <==> '_' !in guess && |guess| == WordLength && isValidWord(guess)
    ensures v.Accepted? && BufferOk(guess) ==> IsWord(guess)
    ensures '_' in guess ==> v == Rejected("INCOMPLETE WORD!")
    ensures '_' !in guess && |guess| != WordLength ==> v == Rejected("TOO SHORT!")
    ensures '_' !in guess && |guess| == WordLength && !isValidWord(guess) ==> v == Rejected("NOT ON WORD LIST")
  {
    if '_' in guess then Rejected("INCOMPLETE WORD!")
    else if |guess| != WordLength then Rejected("TOO SHORT!")
    else if !isValidWord(guess) then Rejected("NOT ON WORD LIST")
    else Accepted
  }

  // ---------------------------------------------------------------- transitions as functions

  /** The warning rule: raised by the miss that brings the count to one below the contract's guesses. */
  function WarnOutcome(s: Snapshot, guessCount: nat): (r: Snapshot)
    ensures r == s.(showWarning := r.showWarning)
    ensures s.showWarning ==> r.showWarning
    ensures r.showWarning && !s.showWarning ==> s.contract.Some? && guessCount == s.contract.value.guesses - 1
    ensures s.contract.Some? && guessCount == s.contract.value.guesses - 1 ==> r.showWarning
  {
    if s.contract.Some? && guessCount == s.contract.value.guesses - 1 && !s.showWarning
    then s.(showWarning := true) else s
  }

  /** handleMiss: the pot is floor-halved once the guess count reaches the contract's guesses. */
  function MissOutcome(s: Snapshot, guessCount: nat): (r: Snapshot)
    ensures r == s.(potValue := r.potValue)
    ensures r.potValue <= s.potValue
    ensures s.contract.Some? && guessCount < s.contract.value.guesses ==> r.potValue == s.potValue
    ensures s.contract.Some? && guessCount >= s.contract.value.guesses ==> r.potValue * 2 <= s.potValue <= r.potValue * 2 + 1
  {
    if s.contract.None? then s
    else s.(potValue := PotAfterMiss(s.potValue, guessCount, s.contract.value.guesses))
  }

  /** handleWin: winnings become the pot; the bank and solved words follow the settlement; the phase is kept. */
  function WinOutcome(s: Snapshot, guessCount: nat, settlement: Settlement): (r: Snapshot)
    ensures r.phase == s.phase && r.guesses == s.guesses && r.targetWord == s.targetWord
    ensures r.currentGuess == s.currentGuess && r.keyStatuses == s.keyStatuses && r.showWarning == s.showWarning
    ensures r.errorMessage == s.errorMessage && r.contract == s.contract
    ensures s.contract.None? ==> r == s
    ensures s.contract.Some? ==>
              && r.potValue == Winnings(s.potValue, guessCount, s.contract.value)
              && r.showCelebration
    ensures s.contract.Some? && settlement.Saved? ==>
              r.bankScore == settlement.newBank && r.solvedWords == s.solvedWords + [ToUpper(s.targetWord)]
    ensures s.contract.Some? && settlement.SaveFailed? ==>
              r.bankScore == s.bankScore + r.potValue && r.solvedWords == s.solvedWords
  {
    if s.contract.None? then s
    else
      var winnings := Winnings(s.potValue, guessCount, s.contract.value);
      var paid := s.(potValue := winnings, showCelebration := true);
      match settlement
      case Saved(newBank) => paid.(bankScore := newBank, solvedWords := s.solvedWords + [ToUpper(s.targetWord)])
      case SaveFailed => paid.(bankScore := s.bankScore + winnings)
  }

  /** After the guess is recorded: the win when it equals the target, otherwise the warning rule and the miss. */
  function Judged(s: Snapshot, settlement: Settlement): (r: Snapshot)
    ensures r.phase == s.phase && r.targetWord == s.targetWord && r.guesses == s.guesses
    ensures r.currentGuess == "" && r.keyStatuses == s.keyStatuses && r.errorMessage == s.errorMessage
    ensures s.currentGuess != s.targetWord ==> r.bankScore == s.bankScore && r.solvedWords == s.solvedWords
  {
    var n := |s.guesses|;
    var judged := if s.currentGuess == s.targetWord then WinOutcome(s, n, settlement)
                  else MissOutcome(WarnOutcome(s, n), n);
    judged.(currentGuess := "")
  }

  /** An accepted submission: the guess is recorded, the keyboard merged, then the win or the miss. */
  function SubmitOutcome(s: Snapshot, merged: map<char, TileStatus>, settlement: Settlement): (r: Snapshot)
    ensures r.phase == s.phase && r.targetWord == s.targetWord
    ensures r.guesses == s.guesses + [s.currentGuess] && r.currentGuess == "" && r.keyStatuses == merged
    ensures s.currentGuess != s.targetWord ==> r.bankScore == s.bankScore && r.solvedWords == s.solvedWords
  {
    Judged(s.(guesses := s.guesses + [s.currentGuess], keyStatuses := merged, errorMessage := ""), settlement)
  }

  /** ENTER: nothing without a contract; a rejected guess only sets the message; an accepted one is submitted. */
  function EnterOutcome(s: Snapshot, isValidWord: string -> bool, settlement: Settlement,
                        merged: map<char, TileStatus>): (r: Snapshot)
    requires s.errorMessage == ""
    ensures r.phase == s.phase
    ensures s.contract.Some? && CheckSubmission(s.currentGuess, isValidWord).Rejected? ==>
              r == s.(errorMessage := r.errorMessage) && r.errorMessage != ""
  {
    if s.contract.None? then s
    else match CheckSubmission(s.currentGuess, isValidWord)
      case Rejected(message) => s.(errorMessage := message)
      case Accepted => SubmitOutcome(s, merged, settlement)
  }

  /** The whole effect of one key press on a session that is PLAYING. */
  function KeyOutcome(s: Snapshot, kind: KeyKind, isValidWord: string -> bool, settlement: Settlement,
                      merged: map<char, TileStatus>): (r: Snapshot)
    ensures r.phase == s.phase
    ensures kind != Enter ==> r == s.(currentGuess := r.currentGuess, errorMessage := "")
    ensures kind == Backspace ==> r.currentGuess == Erased(s.currentGuess)
    ensures kind == Blank ==> r.currentGuess == Typed(s.currentGuess, '_')
    ensures kind.Letter? ==> r.currentGuess == Typed(s.currentGuess, kind.letter)
    ensures kind == Other ==> r.currentGuess == s.currentGuess
  {
    var cleared := s.(errorMessage := "");
    match kind
    case Backspace => cleared.(currentGuess := Erased(s.currentGuess))
    case Blank => cleared.(currentGuess := Typed(s.currentGuess, '_'))
    case Letter(c) => cleared.(currentGuess := Typed(s.currentGuess, c))
    case Other => cleared
    case Enter => EnterOutcome(cleared, isValidWord, settlement, merged)
  }

  // ---------------------------------------------------------------- properties of the transitions

  /** A rejected submission changes nothing but the message, which names the first failed check. */
  lemma RejectedSubmitChangesOnlyMessage(s: Snapshot, isValidWord: string -> bool, settlement: Settlement,
                                         merged: map<char, TileStatus>)
    requires s.contract.Some? && CheckSubmission(s.currentGuess, isValidWord).Rejected?
    ensures var r := KeyOutcome(s, Enter, isValidWord, settlement, merged);
      && r == s.(errorMessage := CheckSubmission(s.currentGuess, isValidWord).message)
      && r.guesses == s.guesses && r.potValue == s.potValue && r.keyStatuses == s.keyStatuses
      && r.currentGuess == s.currentGuess && r.phase == s.phase
  {
  }

  /** An accepted submission appends exactly the buffer to the guesses, and a win keeps the session PLAYING. */
  lemma AcceptedSubmitAppends(s: Snapshot, isValidWord: string -> bool, settlement: Settlement,
                              merged: map<char, TileStatus>)
    requires s.contract.Some? && CheckSubmission(s.currentGuess, isValidWord).Accepted?
    ensures var r := KeyOutcome(s, Enter, isValidWord, settlement, merged);
      && r.guesses == s.guesses + [s.currentGuess]
      && r.currentGuess == "" && r.errorMessage == ""
      && r.phase == s.phase
  {
  }

  /** A missed guess keeps the pot on the closed form floor(10000 / 2^max(0, n - G + 1)). */
  lemma MissFollowsClosedForm(s: Snapshot, n: nat)
    requires s.contract.Some? && s.contract.value.guesses >= 1
    requires s.potValue == PotAfterMisses(s.contract.value.guesses, n)
    ensures MissOutcome(s, n + 1).potValue == PotAfterMisses(s.contract.value.guesses, n + 1)
    ensures MissOutcome(s, n + 1).potValue == BaseStake / Pow2(Halvings(s.contract.value.guesses, n + 1))
  {
    PotClosedForm(s.contract.value.guesses, n + 1);
  }

  /** A win pays at least the pot for every tier in the contract table, and exactly the pot in overtime. */
  lemma WinPaysAtLeastPot(s: Snapshot, guessCount: nat, settlement: Settlement)
    requires s.contract.Some? && s.contract.value in Contracts()
    ensures WinOutcome(s, guessCount, settlement).potValue >= s.potValue
    ensures guessCount > s.contract.value.guesses ==> WinOutcome(s, guessCount, settlement).potValue == s.potValue
  {
    var k :| 0 <= k < |Contracts()| && Contracts()[k] == s.contract.value;
    assert Contracts()[k].multiplierTenths >= 10;
  }

  // ---------------------------------------------------------------- winning twice

  /** Every key of a word pressed in turn. */
  function TypeWord(s: Snapshot, word: string, isValidWord: string -> bool, settlement: Settlement,
                    merged: map<char, TileStatus>): Snapshot
    decreases |word|
  {
    if |word| == 0 then s
    else TypeWord(KeyOutcome(s, Letter(word[0]), isValidWord, settlement, merged), word[1..],
                  isValidWord, settlement, merged)
  }

  /** One letter typed into a buffer with room is appended, and the message is already clear. */
  lemma LetterAppends(s: Snapshot, c: char, isValidWord: string -> bool, settlement: Settlement,
                      merged: map<char, TileStatus>)
    requires s.errorMessage == "" && |s.currentGuess| < WordLength
    ensures KeyOutcome(s, Letter(c), isValidWord, settlement, merged) == s.(currentGuess := s.currentGuess + [c])
  {
  }

  /** Typing a word that fits appends it to the buffer and changes nothing else. */
  lemma {:induction false} TypeWordAppends(s: Snapshot, word: string, isValidWord: string -> bool,
                                           settlement: Settlement, merged: map<char, TileStatus>)
    requires s.errorMessage == "" && |s.currentGuess| + |word| <= WordLength
    ensures TypeWord(s, word, isValidWord, settlement, merged) == s.(currentGuess := s.currentGuess + word)
    decreases |word|
  {
    if |word| > 0 {
      var next := s.(currentGuess := s.currentGuess + [word[0]]);
      assert TypeWord(s, word, isValidWord, settlement, merged) == TypeWord(next, word[1..], isValidWord, settlement, merged) by {
        LetterAppends(s, word[0], isValidWord, settlement, merged);
      }
      assert TypeWord(next, word[1..], isValidWord, settlement, merged) == next.(currentGuess := next.currentGuess + word[1..]) by {
        TypeWordAppends(next, word[1..], isValidWord, settlement, merged);
      }
      assert next.currentGuess + word[1..] == s.currentGuess + word;
    } else {
      assert s.currentGuess + word == s.currentGuess;
    }
  }

  /** A word list that accepts everything. */
  function AnyWord(w: string): bool { true }

  /** An EXTREME round on CRANE with CRANE typed as the first guess. */
  function ExtremeRound(): Snapshot {
    Snapshot(Playing, "CRANE", [], "CRANE", Some(Contracts()[4]), 0, BaseStake, "", [], false, false, map[])
  }

  /** The EXTREME round on CRANE after the given winning guesses, with nothing left in the buffer. */
  function AfterWins(guesses: seq<string>, pot: nat, merged: map<char, TileStatus>): Snapshot {
    Snapshot(Playing, "CRANE", guesses, "", Some(Contracts()[4]), pot, pot, "", [], false, true, merged)
  }

  lemma FirstWinOnExtreme(merged: map<char, TileStatus>)
    ensures KeyOutcome(ExtremeRound(), Enter, AnyWord, SaveFailed, merged) == AfterWins(["CRANE"], 100000, merged)
  {
    assert Contracts()[4].multiplierTenths == 100 && Contracts()[4].guesses == 2;
    assert CheckSubmission("CRANE", AnyWord).Accepted? by {
      assert forall i :: 0 <= i < 5 ==> "CRANE"[i] != '_';
    }
    assert Winnings(BaseStake, 1, Contracts()[4]) == 100000;
  }

  lemma SecondWinOnExtreme(merged: map<char, TileStatus>)
    ensures var typed := AfterWins(["CRANE"], 100000, merged).(currentGuess := "CRANE");
      KeyOutcome(typed, Enter, AnyWord, SaveFailed, merged).potValue == 1000000
      && KeyOutcome(typed, Enter, AnyWord, SaveFailed, merged).bankScore == 1100000
  {
    assert Contracts()[4].multiplierTenths == 100 && Contracts()[4].guesses == 2;
    assert CheckSubmission("CRANE", AnyWord).Accepted? by {
      assert forall i :: 0 <= i < 5 ==> "CRANE"[i] != '_';
    }
    assert Winnings(100000, 2, Contracts()[4]) == 1000000;
  }

  /**
   * As written, a win leaves the round PLAYING, so typing the target again and pressing
   * ENTER within the contract multiplies the already multiplied pot a second time.
   */
  lemma WinningTwiceCompounds(merged: map<char, TileStatus>)
    ensures var once := KeyOutcome(ExtremeRound(), Enter, AnyWord, SaveFailed, merged);
      && once.phase == Playing && once.potValue == 100000 && once.bankScore == 100000
      && var again := KeyOutcome(TypeWord(once, "CRANE", AnyWord, SaveFailed, merged), Enter, AnyWord, SaveFailed, merged);
         again.potValue == 1000000 && again.bankScore == 1100000
  {
    FirstWinOnExtreme(merged);
    var once := AfterWins(["CRANE"], 100000, merged);
    TypeWordAppends(once, "CRANE", AnyWord, SaveFailed, merged);
    assert once.currentGuess + "CRANE" == "CRANE";
    SecondWinOnExtreme(merged);
  }

  /** A round is won once one of its guesses is the target. */
  predicate RoundWon(s: Snapshot) { s.targetWord in s.guesses }

  /** handleInput as evidently intended: a won round ignores every further key. */
  function SettledKeyOutcome(s: Snapshot, kind: KeyKind, isValidWord: string -> bool, settlement: Settlement,
                             merged: map<char, TileStatus>): (r: Snapshot)
    ensures RoundWon(s) ==> r == s
    ensures RoundWon(s) ==> r.potValue == s.potValue && r.bankScore == s.bankScore
  {
    if RoundWon(s) then s else KeyOutcome(s, kind, isValidWord, settlement, merged)
  }

  /** Several keys in turn under the corrected handler. */
  function SettledKeys(s: Snapshot, kinds: seq<KeyKind>, isValidWord: string -> bool, settlement: Settlement,
                       merged: map<char, TileStatus>): Snapshot
    decreases |kinds|
  {
    if |kinds| == 0 then s
    else SettledKeys(SettledKeyOutcome(s, kinds[0], isValidWord, settlement, merged), kinds[1..],
                     isValidWord, settlement, merged)
  }

  /** The winning ENTER wins the round and pays the winnings once. */
  lemma WinningEnterWinsRound(s: Snapshot, isValidWord: string -> bool, settlement: Settlement,
                              merged: map<char, TileStatus>)
    requires !RoundWon(s) && s.contract.Some? && s.currentGuess == s.targetWord
    requires CheckSubmission(s.currentGuess, isValidWord).Accepted?
    ensures var r := SettledKeyOutcome(s, Enter, isValidWord, settlement, merged);
      && RoundWon(r) && r.phase == s.phase
      && r.potValue == Winnings(s.potValue, |s.guesses| + 1, s.contract.value)
  {
    var r := SettledKeyOutcome(s, Enter, isValidWord, settlement, merged);
    assert r.guesses == s.guesses + [s.currentGuess];
    assert r.guesses[|s.guesses|] == s.targetWord;
  }

  /** After a win, no run of keys changes anything: the pot and the bank are paid once. */
  lemma {:induction false} WonRoundPaysOnce(s: Snapshot, kinds: seq<KeyKind>, isValidWord: string -> bool,
                                            settlement: Settlement, merged: map<char, TileStatus>)
    requires RoundWon(s)
    ensures SettledKeys(s, kinds, isValidWord, settlement, merged) == s
  {
    if |kinds| > 0 {
      WonRoundPaysOnce(s, kinds[1..], isValidWord, settlement, merged);
    }
  }

  // ---------------------------------------------------------------- the session

  class Session {
    var phase: GamePhase
    var targetWord: string
    var guesses: seq<string>
    var currentGuess: string
    var contract: Option<ContractTier>
    var bankScore: int
    var potValue: nat
    var errorMessage: string
    var solvedWords: seq<string>
    var showWarning: bool
    var showCelebration: bool
    var keyStatuses: map<char, TileStatus>

    function Snap(): Snapshot
      reads this
    {
      Snapshot(phase, targetWord, guesses, currentGuess, contract, bankScore, potValue, errorMessage,
               solvedWords, showWarning, showCelebration, keyStatuses)
    }

    /** The session invariant: LOST never appears, and the buffer, the target and the guesses are well formed. */
    ghost predicate Valid()
      reads this
    {
      && phase != Lost
      && BufferOk(currentGuess)
      && (phase == Playing ==> IsWord(targetWord))
      && GuessesOk(guesses)
    }

    constructor ()
      ensures Valid()
      ensures Snap() == Snapshot(Setup, "", [], "", None, 0, BaseStake, "", [], false, false, map[])
    {
      phase, targetWord, guesses, currentGuess, contract := Setup, "", [], "", None;
      bankScore, potValue, errorMessage, solvedWords := 0, BaseStake, "", [];
      showWarning, showCelebration, keyStatuses := false, false, map[];
    }

    /**
     * getUnsolvedWord: draw words until one is not yet solved, giving up after MaxAttempts
     * redraws. The draws stand for successive results of the random word source.
     */
    method GetUnsolvedWord(draws: seq<string>) returns (word: string, used: nat)
      requires |draws| > MaxAttempts
      ensures 1 <= used <= MaxAttempts + 1 && word == draws[used - 1]
      ensures forall k :: 0 <= k < used - 1 ==> ToUpper(draws[k]) in solvedWords
      ensures ToUpper(word) !in solvedWords || used == MaxAttempts + 1
    {
      word := draws[0];
      used := 1;
      var attempts := 0;
      while ToUpper(word) in solvedWords && attempts < MaxAttempts
        invariant attempts == used - 1 <= MaxAttempts
        invariant word == draws[used - 1]
        invariant forall k :: 0 <= k < used - 1 ==> ToUpper(draws[k]) in solvedWords
        decreases MaxAttempts - attempts
      {
        word := draws[used];
        used := used + 1;
        attempts := attempts + 1;
      }
    }

    /** startGame: a fresh round under the chosen contract; the bank, solved words and warning flag carry over. */
    method StartGame(selected: ContractTier, draws: seq<string>)
      requires Valid()
      requires |draws| > MaxAttempts && forall k :: 0 <= k < |draws| ==> IsWord(draws[k])
      modifies this
      ensures Valid()
      ensures Snap() == old(Snap()).(phase := Playing, contract := Some(selected), targetWord := targetWord,
                                     guesses := [], currentGuess := "", potValue := BaseStake,
                                     keyStatuses := map[], errorMessage := "")
      ensures exists k :: 0 <= k <= MaxAttempts && targetWord == draws[k]
                          && (forall j :: 0 <= j < k ==> ToUpper(draws[j]) in solvedWords)
                          && (ToUpper(targetWord) !in solvedWords || k == MaxAttempts)
      ensures ToUpper(targetWord) in solvedWords ==> forall k :: 0 <= k < MaxAttempts ==> ToUpper(draws[k]) in solvedWords
    {
      var newWord, used := GetUnsolvedWord(draws);
      Deal(selected, newWord);
      ClearBoard();
      assert targetWord == draws[used - 1];
    }

    /** The first half of startGame's assignments: the contract, the word, the stake and the phase. */
    method Deal(selected: ContractTier, newWord: string)
      requires Valid() && IsWord(newWord)
      modifies this
      ensures Valid()
      ensures Snap() == old(Snap()).(phase := Playing, contract := Some(selected), targetWord := newWord,
                                     potValue := BaseStake)
    {
      contract := Some(selected);
      targetWord := newWord;
      potValue := BaseStake;
      phase := Playing;
    }

    /** The second half: an empty board, buffer, keyboard and message. */
    method ClearBoard()
      requires Valid()
      modifies this
      ensures Valid()
      ensures Snap() == old(Snap()).(guesses := [], currentGuess := "", keyStatuses := map[], errorMessage := "")
    {
      guesses := [];
      currentGuess := "";
      keyStatuses := map[];
      errorMessage := "";
    }

    /** handleInput: one key press; outside PLAYING nothing at all changes. */
    method HandleInput(key: string, isValidWord: string -> bool, settlement: Settlement)
      requires Valid()
      modifies this
      ensures Valid()
      ensures phase == old(phase)
      ensures old(phase) != Playing ==> Snap() == old(Snap())
      ensures old(phase) == Playing ==>
                Snap() == KeyOutcome(old(Snap()), ClassifyKey(key), isValidWord, settlement, keyStatuses)
      ensures old(phase) == Playing && ClassifyKey(key) == Enter && old(contract).Some?
              && CheckSubmission(old(currentGuess), isValidWord).Accepted? ==>
                IsMergeOf(keyStatuses, old(keyStatuses), old(currentGuess), Score(old(currentGuess), old(targetWord)))
    {
      if phase != Playing {
        return;
      }
      errorMessage := "";
      var kind := ClassifyKey(key);
      match kind {
        case Enter =>
          Submit(isValidWord, settlement);
        case Backspace =>
          currentGuess := Erased(currentGuess);
        case Blank =>
          currentGuess := Typed(currentGuess, '_');
        case Letter(c) =>
          currentGuess := Typed(currentGuess, c);
        case Other =>
      }
    }

    /** The ENTER branch of handleInput, after the message has been cleared. */
    method Submit(isValidWord: string -> bool, settlement: Settlement)
      requires Valid() && phase == Playing && errorMessage == ""
      modifies this
      ensures Valid()
      ensures Snap() == EnterOutcome(old(Snap()), isValidWord, settlement, keyStatuses)
      ensures old(contract).Some? && CheckSubmission(old(currentGuess), isValidWord).Accepted? ==>
                IsMergeOf(keyStatuses, old(keyStatuses), old(currentGuess), Score(old(currentGuess), old(targetWord)))
    {
      if contract.None? {
        return;
      }
      var verdict := CheckSubmission(currentGuess, isValidWord);
      if verdict.Rejected? {
        errorMessage := verdict.message;
        return;
      }
      RecordGuess();
      Judge(settlement);
    }

    /** Append the buffer to the guesses and merge its colours into the keyboard. */
    method RecordGuess()
      requires Valid() && phase == Playing && IsWord(currentGuess)
      modifies this
      ensures Valid()
      ensures Snap() == old(Snap()).(guesses := old(guesses) + [old(currentGuess)], keyStatuses := keyStatuses)
      ensures IsMergeOf(keyStatuses, old(keyStatuses), currentGuess, Score(currentGuess, targetWord))
    {
      var guess := currentGuess;
      guesses := guesses + [guess];
      var scores := ScoreForGuess(guess, targetWord);
      var merged := MergeKeyStatuses(keyStatuses, guess, scores);
      keyStatuses := merged;
    }

    /** The win or the miss that follows a recorded guess, and the cleared buffer. */
    method Judge(settlement: Settlement)
      requires Valid() && contract.Some?
      modifies this
      ensures Valid()
      ensures Snap() == Judged(old(Snap()), settlement)
    {
      var count := |guesses|;
      if currentGuess == targetWord {
        HandleWin(count, settlement);
      } else {
        if count == contract.value.guesses - 1 && !showWarning {
          showWarning := true;
        }
        HandleMiss(count);
      }
      currentGuess := "";
    }

    /** handleWin with the outcome of saving the game given. */
    method HandleWin(guessCount: nat, settlement: Settlement)
      requires Valid()
      modifies this
      ensures Valid()
      ensures Snap() == WinOutcome(old(Snap()), guessCount, settlement)
    {
      if contract.None? {
        return;
      }
      var winnings := Winnings(potValue, guessCount, contract.value);
      potValue := winnings;
      match settlement {
        case Saved(newBank) =>
          bankScore := newBank;
          solvedWords := solvedWords + [ToUpper(targetWord)];
        case SaveFailed =>
          bankScore := bankScore + winnings;
      }
      showCelebration := true;
    }

    method HandleMiss(guessCount: nat)
      requires Valid()
      modifies this
      ensures Valid()
      ensures Snap() == MissOutcome(old(Snap()), guessCount)
    {
      if contract.None? {
        return;
      }
      if guessCount >= contract.value.guesses {
        potValue := potValue / 2;
      }
    }

    /** closeCelebration: the only transition into WON. */
    method CloseCelebration()
      requires Valid()
      modifies this
      ensures Valid()
      ensures Snap() == old(Snap()).(showCelebration := false, phase := Won)
    {
      showCelebration := false;
      phase := Won;
    }

    method CloseWarning()
      requires Valid()
      modifies this
      ensures Valid()
      ensures Snap() == old(Snap()).(showWarning := false)
    {
      showWarning := false;
    }
  }
}
