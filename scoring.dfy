/**
 * Tile scoring and the keyboard-status merge of the game hook
 * (src/client/hooks/useFlexword.ts, getScoreForGuess and the merge inside handleInput).
 *
 * `Score` is a declarative reference: a position is correct when the letters match;
 * otherwise it is present exactly when fewer earlier unmatched guess positions hold
 * its letter than there are unmatched target positions holding it. `ScoreForGuess`
 * runs the source's two passes over arrays with the `#`/`*` sentinels and is proved
 * to compute `Score`.
 */
module Scoring {
  import opened ClientTypes

  predicate IsLetter(c: char) { 'A' <= c <= 'Z' }

  /** A five-letter upper-case word: what the lexicon supplies and what submission accepts. */
  predicate IsWord(w: string) {
    |w| == WordLength && forall i :: 0 <= i < |w| ==> IsLetter(w[i])
  }

  function Min(a: nat, b: nat): nat { if a <= b then a else b }

  // ---------------------------------------------------------------- counting

  /** Positions below n of s holding c. */
  function CountUpTo(s: seq<char>, c: char, n: nat): nat
    requires n <= |s|
  {
    if n == 0 then 0 else CountUpTo(s, c, n - 1) + (if s[n - 1] == c then 1 else 0)
  }

  function Occurrences(s: seq<char>, c: char): nat { CountUpTo(s, c, |s|) }

  /** Positions below n where guess and target both hold c (the exact matches of c). */
  function ExactUpTo(g: string, t: string, c: char, n: nat): nat
    requires n <= |g| == |t|
  {
    if n == 0 then 0 else ExactUpTo(g, t, c, n - 1) + (if g[n - 1] == c && t[n - 1] == c then 1 else 0)
  }

  /** Positions below n where the guess holds c and the target does not: the guess letters pass 2 looks up. */
  function GuessLeftUpTo(g: string, t: string, c: char, n: nat): nat
    requires n <= |g| == |t|
  {
    if n == 0 then 0 else GuessLeftUpTo(g, t, c, n - 1) + (if g[n - 1] == c && t[n - 1] != c then 1 else 0)
  }

  /** Positions below n where the target holds c and the guess does not: the target letters pass 1 leaves. */
  function TargetLeftUpTo(g: string, t: string, c: char, n: nat): nat
    requires n <= |g| == |t|
  {
    if n == 0 then 0 else TargetLeftUpTo(g, t, c, n - 1) + (if t[n - 1] == c && g[n - 1] != c then 1 else 0)
  }

  // ---------------------------------------------------------------- reference scoring

  function StatusAt(g: string, t: string, i: nat): TileStatus
    requires |g| == |t| && i < |g|
  {
    if g[i] == t[i] then Correct
    else if GuessLeftUpTo(g, t, g[i], i) < TargetLeftUpTo(g, t, g[i], |t|) then Present
    else Absent
  }

  /** The tile outcome of every position of a guess against a target of the same length. */
  function Score(guess: string, target: string): (r: seq<TileStatus>)
    requires |guess| == |target|
    ensures |r| == |guess|
    ensures forall i :: 0 <= i < |r| ==> (r[i] == Correct <==> guess[i] == target[i])
    ensures forall i :: 0 <= i < |r| ==> r[i] != Initial
  {
    seq(|guess|, i requires 0 <= i < |guess| => StatusAt(guess, target, i))
  }

  /** Positions below n whose guess letter is c and whose tile is not absent. */
  function CreditedUpTo(g: string, r: seq<TileStatus>, c: char, n: nat): nat
    requires n <= |g| == |r|
  {
    if n == 0 then 0 else CreditedUpTo(g, r, c, n - 1) + (if g[n - 1] == c && r[n - 1] != Absent then 1 else 0)
  }

  lemma {:induction false} GuessSplit(g: string, t: string, c: char, n: nat)
    requires n <= |g| == |t|
    ensures CountUpTo(g, c, n) == ExactUpTo(g, t, c, n) + GuessLeftUpTo(g, t, c, n)
  {
    if n > 0 { GuessSplit(g, t, c, n - 1); }
  }

  lemma {:induction false} TargetSplit(g: string, t: string, c: char, n: nat)
    requires n <= |g| == |t|
    ensures CountUpTo(t, c, n) == ExactUpTo(g, t, c, n) + TargetLeftUpTo(g, t, c, n)
  {
    if n > 0 { TargetSplit(g, t, c, n - 1); }
  }

  lemma {:induction false} CreditedPrefix(g: string, t: string, c: char, n: nat)
    requires n <= |g| == |t|
    ensures CreditedUpTo(g, Score(g, t), c, n)
         == ExactUpTo(g, t, c, n) + Min(GuessLeftUpTo(g, t, c, n), TargetLeftUpTo(g, t, c, |t|))
  {
    if n > 0 { CreditedPrefix(g, t, c, n - 1); }
  }

  /**
   * Duplicate-letter soundness: for every letter, the tiles that are not absent
   * number exactly min(occurrences in the guess, occurrences in the target).
   */
  lemma CreditMatchesOccurrences(guess: string, target: string, c: char)
    requires |guess| == |target|
    ensures CreditedUpTo(guess, Score(guess, target), c, |guess|)
         == Min(Occurrences(guess, c), Occurrences(target, c))
    ensures CreditedUpTo(guess, Score(guess, target), c, |guess|) <= Occurrences(target, c)
  {
    CreditedPrefix(guess, target, c, |guess|);
    GuessSplit(guess, target, c, |guess|);
    TargetSplit(guess, target, c, |target|);
  }

  lemma {:induction false} TargetLeftBounded(g: string, t: string, c: char, n: nat)
    requires n <= |g| == |t|
    ensures TargetLeftUpTo(g, t, c, n) <= CountUpTo(t, c, n)
  {
    if n > 0 { TargetLeftBounded(g, t, c, n - 1); }
  }

  /** A guess letter that does not occur in the target is always absent. */
  lemma MissingLetterIsAbsent(guess: string, target: string, i: nat)
    requires |guess| == |target| && i < |guess|
    requires Occurrences(target, guess[i]) == 0
    ensures Score(guess, target)[i] == Absent
  {
    TargetLeftBounded(guess, target, guess[i], |target|);
    CountZeroIffMissing(target, guess[i], |target|);
    assert target[..|target|] == target;
  }

  /** Guessing the target itself scores every tile correct. */
  lemma ExactGuessAllCorrect(word: string)
    ensures forall i :: 0 <= i < |word| ==> Score(word, word)[i] == Correct
  {
  }

  /** The menu's worked example: SABLE against SABER. */
  lemma SableAgainstSaber()
    ensures Score("SABLE", "SABER") == [Correct, Correct, Correct, Absent, Present]
  {
    assert StatusAt("SABLE", "SABER", 3) == Absent by {
      assert TargetLeftUpTo("SABLE", "SABER", 'L', 5) == 0;
    }
    assert StatusAt("SABLE", "SABER", 4) == Present by {
      assert GuessLeftUpTo("SABLE", "SABER", 'E', 4) == 0;
      assert TargetLeftUpTo("SABLE", "SABER", 'E', 5) == 1;
    }
  }

  /** A permuted guess: only the middle letter is in place, every other letter is present. */
  lemma ReversedGuess()
    ensures Score("ABCDE", "EDCBA") == [Present, Present, Correct, Present, Present]
  {
    assert TargetLeftUpTo("ABCDE", "EDCBA", 'A', 5) == 1;
    assert TargetLeftUpTo("ABCDE", "EDCBA", 'B', 5) == 1;
    assert TargetLeftUpTo("ABCDE", "EDCBA", 'D', 5) == 1;
    assert TargetLeftUpTo("ABCDE", "EDCBA", 'E', 5) == 1;
  }

  // ---------------------------------------------------------------- sequence helpers for the arrays

  /** `Array.prototype.indexOf`: the first position holding c, or -1. */
  function IndexOf(s: seq<char>, c: char): (r: int)
    ensures r == -1 <==> c !in s
    ensures r != -1 ==> 0 <= r < |s| && s[r] == c && c !in s[..r]
  {
    if |s| == 0 then -1
    else if s[0] == c then 0
    else var k := IndexOf(s[1..], c); if k == -1 then -1 else k + 1
  }

  /** The target after pass 1: exact matches overwritten with '#'. */
  function Masked(g: string, t: string): (m: seq<char>)
    requires |g| == |t|
  {
    seq(|t|, k requires 0 <= k < |t| => if g[k] == t[k] then '#' else t[k])
  }

  lemma {:induction false} MaskedCount(g: string, t: string, c: char, n: nat)
    requires |g| == |t| && n <= |t| && c != '#'
    ensures CountUpTo(Masked(g, t), c, n) == TargetLeftUpTo(g, t, c, n)
  {
    if n > 0 { MaskedCount(g, t, c, n - 1); }
  }

  lemma {:induction false} CountZeroIffMissing(s: seq<char>, c: char, n: nat)
    requires n <= |s|
    ensures CountUpTo(s, c, n) == 0 <==> c !in s[..n]
  {
    if n > 0 {
      CountZeroIffMissing(s, c, n - 1);
      assert s[..n] == s[..n - 1] + [s[n - 1]];
    }
  }

  lemma {:induction false} CountAfterConsume(s: seq<char>, idx: nat, c: char, d: char, n: nat)
    requires idx < |s| && s[idx] == c && c != '#' && d != '#' && n <= |s|
    ensures CountUpTo(s[idx := '#'], d, n)
         == CountUpTo(s, d, n) - (if d == c && idx < n then 1 else 0)
  {
    if n > 0 { CountAfterConsume(s, idx, c, d, n - 1); }
  }

  /**
   * What pass 2 keeps true of the working target `rest` before position i: of every
   * letter, the unconsumed copies plus the yellows already handed out make up the
   * target copies pass 1 left.
   */
  ghost predicate Unconsumed(g: string, t: string, rest: seq<char>, i: nat)
    requires |g| == |t| && i <= |g|
  {
    forall c :: IsLetter(c) ==>
      Occurrences(rest, c) + Min(GuessLeftUpTo(g, t, c, i), TargetLeftUpTo(g, t, c, |t|))
      == TargetLeftUpTo(g, t, c, |t|)
  }

  lemma UnconsumedAfterPassOne(g: string, t: string)
    requires |g| == |t|
    ensures Unconsumed(g, t, Masked(g, t), 0)
  {
    forall c | IsLetter(c)
      ensures Occurrences(Masked(g, t), c) == TargetLeftUpTo(g, t, c, |t|)
    {
      MaskedCount(g, t, c, |t|);
    }
  }

  /** Pass 2 skips a green: nothing is consumed. */
  lemma UnconsumedSkipGreen(g: string, t: string, rest: seq<char>, i: nat)
    requires |g| == |t| && i < |g| && g[i] == t[i]
    requires Unconsumed(g, t, rest, i)
    ensures Unconsumed(g, t, rest, i + 1)
  {
    forall c | IsLetter(c)
      ensures GuessLeftUpTo(g, t, c, i + 1) == GuessLeftUpTo(g, t, c, i)
    {
    }
  }

  /** Pass 2 at a non-green position: the lookup succeeds exactly when the reference says present. */
  lemma UnconsumedLookup(g: string, t: string, rest: seq<char>, i: nat)
    requires |g| == |t| && i < |g| && g[i] != t[i] && IsLetter(g[i])
    requires Unconsumed(g, t, rest, i)
    ensures StatusAt(g, t, i) == if IndexOf(rest, g[i]) == -1 then Absent else Present
    ensures IndexOf(rest, g[i]) == -1 ==> Unconsumed(g, t, rest, i + 1)
    ensures IndexOf(rest, g[i]) != -1 ==> Unconsumed(g, t, rest[IndexOf(rest, g[i]) := '#'], i + 1)
  {
    var ch := g[i];
    CountZeroIffMissing(rest, ch, |rest|);
    assert rest[..|rest|] == rest;
    var idx := IndexOf(rest, ch);
    if idx == -1 {
      forall c | IsLetter(c)
        ensures Occurrences(rest, c) + Min(GuessLeftUpTo(g, t, c, i + 1), TargetLeftUpTo(g, t, c, |t|))
             == TargetLeftUpTo(g, t, c, |t|)
      {
      }
    } else {
      var after := rest[idx := '#'];
      forall c | IsLetter(c)
        ensures Occurrences(after, c) + Min(GuessLeftUpTo(g, t, c, i + 1), TargetLeftUpTo(g, t, c, |t|))
             == TargetLeftUpTo(g, t, c, |t|)
      {
        CountAfterConsume(rest, idx, ch, c, |rest|);
      }
    }
  }

  /** The guess after pass 1: exact matches overwritten with '*'. */
  function Marked(g: string, t: string): (m: seq<char>)
    requires |g| == |t|
  {
    seq(|g|, k requires 0 <= k < |g| => if g[k] == t[k] then '*' else g[k])
  }

  /** The tiles after pass 1: greens where the letters match, absent elsewhere. */
  function Greens(g: string, t: string): (r: seq<TileStatus>)
    requires |g| == |t|
  {
    seq(|g|, k requires 0 <= k < |g| => if g[k] == t[k] then Correct else Absent)
  }

  /** The state of pass 1 before position i: below i the sentinels are placed, from i on nothing changed. */
  ghost predicate GreensSoFar(g: string, t: string, res: seq<TileStatus>, ta: seq<char>, ga: seq<char>, i: nat)
    requires |g| == |t| == |res| == |ta| == |ga| && i <= |g|
  {
    && (forall k :: 0 <= k < i ==> res[k] == Greens(g, t)[k] && ta[k] == Masked(g, t)[k] && ga[k] == Marked(g, t)[k])
    && (forall k :: i <= k < |g| ==> res[k] == Absent && ta[k] == t[k] && ga[k] == g[k])
  }

  lemma GreenStep(g: string, t: string, res: seq<TileStatus>, ta: seq<char>, ga: seq<char>, i: nat)
    requires |g| == |t| == |res| == |ta| == |ga| && i < |g|
    requires GreensSoFar(g, t, res, ta, ga, i)
    ensures ga[i] == ta[i] ==> GreensSoFar(g, t, res[i := Correct], ta[i := '#'], ga[i := '*'], i + 1)
    ensures ga[i] != ta[i] ==> GreensSoFar(g, t, res, ta, ga, i + 1)
  {
  }

  lemma GreensDone(g: string, t: string, res: seq<TileStatus>, ta: seq<char>, ga: seq<char>)
    requires |g| == |t| == |res| == |ta| == |ga|
    requires GreensSoFar(g, t, res, ta, ga, |g|)
    ensures res == Greens(g, t) && ta == Masked(g, t) && ga == Marked(g, t)
  {
  }

  /**
   * The state of pass 2 before position i: tiles below i are final, tiles from i on
   * still hold the pass-1 outcome, and `rest` is the working target.
   */
  ghost predicate YellowsSoFar(g: string, t: string, res: seq<TileStatus>, rest: seq<char>, i: nat)
    requires |g| == |t| == |res| && i <= |g|
  {
    && (forall k :: 0 <= k < i ==> res[k] == StatusAt(g, t, k))
    && (forall k :: i <= k < |res| ==> res[k] == (if g[k] == t[k] then Correct else Absent))
    && Unconsumed(g, t, rest, i)
  }

  lemma YellowsStart(g: string, t: string)
    requires |g| == |t|
    ensures YellowsSoFar(g, t, Greens(g, t), Masked(g, t), 0)
  {
    UnconsumedAfterPassOne(g, t);
  }

  /** One step of pass 2, in the three shapes the loop body can take. */
  lemma YellowStep(g: string, t: string, res: seq<TileStatus>, rest: seq<char>, i: nat)
    requires IsWord(g) && |t| == |g| == |res| && i < |g|
    requires YellowsSoFar(g, t, res, rest, i)
    ensures g[i] == t[i] ==> YellowsSoFar(g, t, res, rest, i + 1)
    ensures g[i] != t[i] && IndexOf(rest, g[i]) == -1 ==> YellowsSoFar(g, t, res, rest, i + 1)
    ensures g[i] != t[i] && IndexOf(rest, g[i]) != -1 ==>
              YellowsSoFar(g, t, res[i := Present], rest[IndexOf(rest, g[i]) := '#'], i + 1)
  {
    if g[i] == t[i] {
      UnconsumedSkipGreen(g, t, rest, i);
    } else {
      UnconsumedLookup(g, t, rest, i);
    }
  }

  lemma YellowsDone(g: string, t: string, res: seq<TileStatus>, rest: seq<char>)
    requires |g| == |t| == |res|
    requires YellowsSoFar(g, t, res, rest, |g|)
    ensures res == Score(g, t)
  {
  }

  // ---------------------------------------------------------------- the hook's scoring routine

  /** getScoreForGuess: pass 1 marks greens, pass 2 hands out yellows left to right. */
  method ScoreForGuess(guess: string, target: string) returns (statuses: seq<TileStatus>)
    requires IsWord(guess) && IsWord(target)
    ensures statuses == Score(guess, target)
  {
    var result := new TileStatus[WordLength](_ => Absent);
    var targetArr := new char[|target|](k requires 0 <= k < |target| => target[k]);
    var guessArr := new char[|guess|](k requires 0 <= k < |guess| => guess[k]);
    assert targetArr[..] == target && guessArr[..] == guess;
    MarkGreens(result, targetArr, guessArr);
    MarkYellows(result, targetArr, guessArr, guess, target);
    statuses := result[..];
  }

  /** Pass 1 of getScoreForGuess: a matching position turns green and both letters are used up. */
  method MarkGreens(result: array<TileStatus>, targetArr: array<char>, guessArr: array<char>)
    requires result.Length == targetArr.Length == guessArr.Length && targetArr != guessArr
    requires forall k :: 0 <= k < result.Length ==> result[k] == Absent
    modifies result, targetArr, guessArr
    ensures result[..] == Greens(old(guessArr[..]), old(targetArr[..]))
    ensures targetArr[..] == Masked(old(guessArr[..]), old(targetArr[..]))
    ensures guessArr[..] == Marked(old(guessArr[..]), old(targetArr[..]))
  {
    ghost var g, t := guessArr[..], targetArr[..];
    var i := 0;
    while i < guessArr.Length
      invariant 0 <= i <= guessArr.Length
      invariant GreensSoFar(g, t, result[..], targetArr[..], guessArr[..], i)
    {
      ghost var res0, ta0, ga0 := result[..], targetArr[..], guessArr[..];
      GreenStep(g, t, res0, ta0, ga0, i);
      if guessArr[i] == targetArr[i] {
        result[i] := Correct;
        targetArr[i] := '#';
        guessArr[i] := '*';
        assert result[..] == res0[i := Correct];
        assert targetArr[..] == ta0[i := '#'];
        assert guessArr[..] == ga0[i := '*'];
      }
      i := i + 1;
    }
    GreensDone(g, t, result[..], targetArr[..], guessArr[..]);
  }

  /**
   * Pass 2 of getScoreForGuess: each position that is not green takes the first unused
   * copy of its letter in the target, if there is one, and turns yellow.
   */
  method MarkYellows(result: array<TileStatus>, targetArr: array<char>, guessArr: array<char>,
                     ghost guess: string, ghost target: string)
    requires IsWord(guess) && |target| == |guess|
    requires result.Length == targetArr.Length == guessArr.Length == |guess|
    requires result[..] == Greens(guess, target)
    requires targetArr[..] == Masked(guess, target)
    requires guessArr[..] == Marked(guess, target)
    modifies result, targetArr
    ensures result[..] == Score(guess, target)
  {
    YellowsStart(guess, target);
    var i := 0;
    while i < guessArr.Length
      invariant 0 <= i <= guessArr.Length
      invariant YellowsSoFar(guess, target, result[..], targetArr[..], i)
    {
      var ch := guessArr[i];
      assert ch == Marked(guess, target)[i];
      ghost var res0, rest0 := result[..], targetArr[..];
      YellowStep(guess, target, res0, rest0, i);
      if ch != '*' {
        var indexInTarget := IndexOf(targetArr[..], ch);
        if indexInTarget != -1 {
          result[i] := Present;
          targetArr[indexInTarget] := '#';
          assert result[..] == res0[i := Present];
          assert targetArr[..] == rest0[indexInTarget := '#'];
        }
      }
      i := i + 1;
    }
    YellowsDone(guess, target, result[..], targetArr[..]);
  }

  // ---------------------------------------------------------------- keyboard merge

  /** Precedence used by the merge: correct > present > absent > initial. */
  function StatusRank(s: TileStatus): nat {
    match s
    case Initial => 0
    case Absent => 1
    case Present => 2
    case Correct => 3
  }

  /** Only the letters already on the keyboard or in the guess have an entry. */
  ghost predicate MergeDomain(merged: map<char, TileStatus>, keys: map<char, TileStatus>, guess: string) {
    forall c :: c in merged <==> c in keys || c in guess
  }

  /** A letter not in the guess keeps its old status. */
  ghost predicate MergeKeepsOthers(merged: map<char, TileStatus>, keys: map<char, TileStatus>, guess: string) {
    forall c :: c in keys && c !in guess ==> c in merged && merged[c] == keys[c]
  }

  /** No letter is downgraded: green stays green, yellow never drops to grey. */
  ghost predicate MergeMonotone(merged: map<char, TileStatus>, keys: map<char, TileStatus>) {
    forall c :: c in keys ==> c in merged && StatusRank(keys[c]) <= StatusRank(merged[c])
  }

  /** Every letter of the guess is at least as good as the status it just received. */
  ghost predicate MergeDominates(merged: map<char, TileStatus>, guess: string, scores: seq<TileStatus>)
    requires |scores| == |guess|
  {
    forall i :: 0 <= i < |guess| ==> guess[i] in merged && StatusRank(scores[i]) <= StatusRank(merged[guess[i]])
  }

  /** Every entry is its old status or one the guess gave that letter. */
  ghost predicate MergeAttained(merged: map<char, TileStatus>, keys: map<char, TileStatus>, guess: string,
                                scores: seq<TileStatus>)
    requires |scores| == |guess|
  {
    forall c :: c in merged ==>
      (c in keys && merged[c] == keys[c]) ||
      (exists i :: 0 <= i < |guess| && guess[i] == c && merged[c] == scores[i])
  }

  /**
   * `merged` is the keyboard map after folding one scored guess into `keys`: every
   * letter of the guess holds the best status it had before or received now,
   * and no other entry changes.
   */
  ghost predicate IsMergeOf(merged: map<char, TileStatus>, keys: map<char, TileStatus>,
                            guess: string, scores: seq<TileStatus>)
    requires |scores| == |guess|
  {
    && MergeDomain(merged, keys, guess)
    && MergeKeepsOthers(merged, keys, guess)
    && MergeMonotone(merged, keys)
    && MergeDominates(merged, guess, scores)
    && MergeAttained(merged, keys, guess, scores)
  }

  /** An attained entry is bounded by any map that dominates both the old keyboard and the guess. */
  lemma MergeBounded(m: map<char, TileStatus>, other: map<char, TileStatus>, keys: map<char, TileStatus>,
                     guess: string, scores: seq<TileStatus>, c: char)
    requires |scores| == |guess| && c in m
    requires MergeAttained(m, keys, guess, scores)
    requires MergeMonotone(other, keys) && MergeDominates(other, guess, scores)
    ensures c in other && StatusRank(m[c]) <= StatusRank(other[c])
  {
    if !(c in keys && m[c] == keys[c]) {
      var i :| 0 <= i < |guess| && guess[i] == c && m[c] == scores[i];
    }
  }

  /** The merge is a function: two maps that both satisfy IsMergeOf are equal. */
  lemma MergeIsDetermined(m1: map<char, TileStatus>, m2: map<char, TileStatus>,
                          keys: map<char, TileStatus>, guess: string, scores: seq<TileStatus>)
    requires |scores| == |guess|
    requires IsMergeOf(m1, keys, guess, scores) && IsMergeOf(m2, keys, guess, scores)
    ensures m1 == m2
  {
    forall c | c in m1
      ensures c in m2 && m1[c] == m2[c]
    {
      MergeBounded(m1, m2, keys, guess, scores, c);
      MergeBounded(m2, m1, keys, guess, scores, c);
    }
    assert m1.Keys == m2.Keys;
  }

  /** One letter of the merge: a green stays, a yellow does not drop to grey, otherwise the new status wins. */
  function MergeOne(m: map<char, TileStatus>, ch: char, status: TileStatus): (r: map<char, TileStatus>)
    ensures ch in r && r.Keys == m.Keys + {ch}
    ensures forall c :: c in m && c != ch ==> r[c] == m[c]
    ensures r[ch] == status || (ch in m && r[ch] == m[ch])
    ensures status != Initial ==> StatusRank(status) <= StatusRank(r[ch])
    ensures status != Initial && ch in m ==> StatusRank(m[ch]) <= StatusRank(r[ch])
  {
    if ch in m && m[ch] == Correct then m
    else if ch in m && m[ch] == Present && status == Absent then m
    else m[ch := status]
  }

  /** The keyboard after folding in the letters of a guess from left to right. */
  function MergeFold(keys: map<char, TileStatus>, guess: string, scores: seq<TileStatus>): map<char, TileStatus>
    requires |scores| == |guess|
  {
    if |guess| == 0 then keys
    else MergeOne(MergeFold(keys, guess[..|guess| - 1], scores[..|guess| - 1]), guess[|guess| - 1], scores[|guess| - 1])
  }

  lemma StepDomain(merged: map<char, TileStatus>, keys: map<char, TileStatus>, g: string, ch: char, status: TileStatus)
    requires MergeDomain(merged, keys, g)
    ensures MergeDomain(MergeOne(merged, ch, status), keys, g + [ch])
  {
    assert forall c :: c in g + [ch] <==> c in g || c == ch;
  }

  lemma StepKeepsOthers(merged: map<char, TileStatus>, keys: map<char, TileStatus>, g: string, ch: char,
                        status: TileStatus)
    requires MergeKeepsOthers(merged, keys, g)
    ensures MergeKeepsOthers(MergeOne(merged, ch, status), keys, g + [ch])
  {
    assert forall c :: c in g + [ch] <==> c in g || c == ch;
  }

  lemma StepMonotone(merged: map<char, TileStatus>, keys: map<char, TileStatus>, ch: char, status: TileStatus)
    requires status != Initial && MergeMonotone(merged, keys)
    ensures MergeMonotone(MergeOne(merged, ch, status), keys)
  {
  }

  lemma StepDominates(merged: map<char, TileStatus>, g: string, s: seq<TileStatus>, ch: char, status: TileStatus)
    requires |s| == |g| && status != Initial && MergeDominates(merged, g, s)
    ensures MergeDominates(MergeOne(merged, ch, status), g + [ch], s + [status])
  {
    var next, g', s' := MergeOne(merged, ch, status), g + [ch], s + [status];
    forall i | 0 <= i < |g'|
      ensures g'[i] in next && StatusRank(s'[i]) <= StatusRank(next[g'[i]])
    {
      if i < |g| { assert g'[i] == g[i] && s'[i] == s[i]; }
    }
  }

  lemma StepAttained(merged: map<char, TileStatus>, keys: map<char, TileStatus>, g: string, s: seq<TileStatus>,
                     ch: char, status: TileStatus)
    requires |s| == |g| && MergeAttained(merged, keys, g, s)
    ensures MergeAttained(MergeOne(merged, ch, status), keys, g + [ch], s + [status])
  {
    var next, g', s' := MergeOne(merged, ch, status), g + [ch], s + [status];
    forall c | c in next
      ensures (c in keys && next[c] == keys[c]) ||
              (exists i :: 0 <= i < |g'| && g'[i] == c && next[c] == s'[i])
    {
      if c == ch && next[c] == status {
        assert g'[|g|] == c && next[c] == s'[|g|];
      } else if !(c in keys && next[c] == keys[c]) {
        var i :| 0 <= i < |g| && g[i] == c && merged[c] == s[i];
        assert g'[i] == c && next[c] == s'[i];
      }
    }
  }

  /** One step of the merge loop keeps IsMergeOf for the guess prefix extended by one letter. */
  lemma MergeStep(merged: map<char, TileStatus>, keys: map<char, TileStatus>, g: string, s: seq<TileStatus>,
                  ch: char, status: TileStatus)
    requires |s| == |g| && status != Initial
    requires IsMergeOf(merged, keys, g, s)
    ensures IsMergeOf(MergeOne(merged, ch, status), keys, g + [ch], s + [status])
  {
    StepDomain(merged, keys, g, ch, status);
    StepKeepsOthers(merged, keys, g, ch, status);
    StepMonotone(merged, keys, ch, status);
    StepDominates(merged, g, s, ch, status);
    StepAttained(merged, keys, g, s, ch, status);
  }

  /** The left fold meets the declarative description of the merge. */
  lemma {:induction false} MergeFoldIsMerge(keys: map<char, TileStatus>, guess: string, scores: seq<TileStatus>)
    requires |scores| == |guess|
    requires forall i :: 0 <= i < |scores| ==> scores[i] != Initial
    ensures IsMergeOf(MergeFold(keys, guess, scores), keys, guess, scores)
  {
    if |guess| > 0 {
      var n := |guess| - 1;
      MergeFoldIsMerge(keys, guess[..n], scores[..n]);
      assert guess == guess[..n] + [guess[n]] && scores == scores[..n] + [scores[n]];
      MergeStep(MergeFold(keys, guess[..n], scores[..n]), keys, guess[..n], scores[..n], guess[n], scores[n]);
    }
  }

  lemma FoldStep(keys: map<char, TileStatus>, guess: string, scores: seq<TileStatus>, i: nat)
    requires |scores| == |guess| && i < |guess|
    ensures MergeFold(keys, guess[..i + 1], scores[..i + 1])
            == MergeOne(MergeFold(keys, guess[..i], scores[..i]), guess[i], scores[i])
  {
    assert guess[..i + 1][..i] == guess[..i] && scores[..i + 1][..i] == scores[..i];
  }

  /** The merge loop of handleInput: a green is never overwritten, a yellow never drops to grey. */
  method MergeKeyStatuses(keys: map<char, TileStatus>, guess: string, scores: seq<TileStatus>)
    returns (merged: map<char, TileStatus>)
    requires |scores| == |guess|
    requires forall i :: 0 <= i < |scores| ==> scores[i] != Initial
    ensures IsMergeOf(merged, keys, guess, scores)
  {
    merged := keys;
    var i := 0;
    while i < |guess|
      invariant 0 <= i <= |guess|
      invariant merged == MergeFold(keys, guess[..i], scores[..i])
    {
      var ch, status := guess[i], scores[i];
      if ch in merged && merged[ch] == Correct {
      } else if ch in merged && merged[ch] == Present && status == Absent {
      } else {
        merged := merged[ch := status];
      }
      FoldStep(keys, guess, scores, i);
      i := i + 1;
    }
    assert guess[..i] == guess && scores[..i] == scores;
    MergeFoldIsMerge(keys, guess, scores);
  }
}
