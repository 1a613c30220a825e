/**
 * The copy of the scoring routine in the history rows of the game screen
 * (src/client/components/GameScreen.tsx, StaticRow.getStatuses). It repeats the
 * hook's two passes with its own arrays `stats`, `tArr` and `wArr`, and is proved
 * to agree with the hook's routine on every pair of words.
 */
module GameScreen {
  import opened ClientTypes
  import opened Scoring

  method GetStatuses(word: string, target: string) returns (statuses: seq<TileStatus>)
    requires IsWord(word) && IsWord(target)
    ensures statuses == Score(word, target)
  {
    var stats := new TileStatus[WordLength](_ => Absent);
    var tArr := new char[|target|](k requires 0 <= k < |target| => target[k]);
    var wArr := new char[|word|](k requires 0 <= k < |word| => word[k]);
    assert tArr[..] == target && wArr[..] == word;
    ExactPass(stats, tArr, wArr);
    PresentPass(stats, tArr, wArr, word, target);
    statuses := stats[..];
  }

  /** First `forEach` of getStatuses. */
  method ExactPass(stats: array<TileStatus>, tArr: array<char>, wArr: array<char>)
    requires stats.Length == tArr.Length == wArr.Length && tArr != wArr
    requires forall k :: 0 <= k < stats.Length ==> stats[k] == Absent
    modifies stats, tArr, wArr
    ensures stats[..] == Greens(old(wArr[..]), old(tArr[..]))
    ensures tArr[..] == Masked(old(wArr[..]), old(tArr[..]))
    ensures wArr[..] == Marked(old(wArr[..]), old(tArr[..]))
  {
    ghost var w, t := wArr[..], tArr[..];
    var i := 0;
    while i < wArr.Length
      invariant 0 <= i <= wArr.Length
      invariant GreensSoFar(w, t, stats[..], tArr[..], wArr[..], i)
    {
      ghost var s0, t0, w0 := stats[..], tArr[..], wArr[..];
      GreenStep(w, t, s0, t0, w0, i);
      var c := wArr[i];
      if c == tArr[i] {
        stats[i] := Correct;
        tArr[i] := '#';
        wArr[i] := '*';
        assert stats[..] == s0[i := Correct];
        assert tArr[..] == t0[i := '#'];
        assert wArr[..] == w0[i := '*'];
      }
      i := i + 1;
    }
    GreensDone(w, t, stats[..], tArr[..], wArr[..]);
  }

  /** Second `forEach` of getStatuses. */
  method PresentPass(stats: array<TileStatus>, tArr: array<char>, wArr: array<char>,
                     ghost word: string, ghost target: string)
    requires IsWord(word) && |target| == |word|
    requires stats.Length == tArr.Length == wArr.Length == |word|
    requires stats[..] == Greens(word, target)
    requires tArr[..] == Masked(word, target)
    requires wArr[..] == Marked(word, target)
    modifies stats, tArr
    ensures stats[..] == Score(word, target)
  {
    YellowsStart(word, target);
    var i := 0;
    while i < wArr.Length
      invariant 0 <= i <= wArr.Length
      invariant YellowsSoFar(word, target, stats[..], tArr[..], i)
    {
      var c := wArr[i];
      assert c == Marked(word, target)[i];
      ghost var s0, t0 := stats[..], tArr[..];
      YellowStep(word, target, s0, t0, i);
      if c != '*' {
        var idx := IndexOf(tArr[..], c);
        if idx != -1 {
          stats[i] := Present;
          tArr[idx] := '#';
          assert stats[..] == s0[i := Present];
          assert tArr[..] == t0[idx := '#'];
        }
      }
      i := i + 1;
    }
    YellowsDone(word, target, stats[..], tArr[..]);
  }

  /** A history row shows the same tiles the hook computed for the keyboard when the guess was made. */
  method RowAgreesWithHook(word: string, target: string) returns (row: seq<TileStatus>, hook: seq<TileStatus>)
    requires IsWord(word) && IsWord(target)
    ensures row == hook
  {
    row := GetStatuses(word, target);
    hook := ScoreForGuess(word, target);
  }
}
