/**
 * The ledger service: per-user bank balances and solved-word sets, and a global
 * leaderboard, each stored under a key built from the username.
 */
module RedisService {
  import opened Wrappers
  import opened Decimal
  import opened Text
  import opened Redis

  // ---------------------------------------------------------------- key builders

  /** `user:<name>:bank`, the string key of a user's balance. */
  function UserBankKey(username: string): (k: string)
    ensures |k| == |username| + 10
    ensures k[..5] == "user:" && k[5..|k| - 5] == username && k[|k| - 5..] == ":bank"
  {
    "user:" + username + ":bank"
  }

  /** `user:<name>:solved`, the set key of a user's solved words. */
  function UserSolvedKey(username: string): (k: string)
    ensures |k| == |username| + 12
    ensures k[..5] == "user:" && k[5..|k| - 7] == username && k[|k| - 7..] == ":solved"
  {
    "user:" + username + ":solved"
  }

  /** The one sorted-set key shared by all users. */
  const LeaderboardKey: string := "leaderboard:global"

  /** No two keys of different kinds coincide, whatever the usernames. */
  lemma KeysNeverCollide(u: string, v: string)
    ensures UserBankKey(u)[|UserBankKey(u)| - 5..] == ":bank"
    ensures UserSolvedKey(u)[|UserSolvedKey(u)| - 7..] == ":solved"
    ensures UserBankKey(u) != UserSolvedKey(v)
    ensures UserBankKey(u) != LeaderboardKey && UserSolvedKey(u) != LeaderboardKey
  {
    var b, s := UserBankKey(u), UserSolvedKey(v);
    assert b[|b| - 1] == 'k' && s[|s| - 1] == 'd';
    assert UserBankKey(u)[0] == 'u' && UserSolvedKey(u)[0] == 'u' && LeaderboardKey[0] == 'l';
  }

  /** Distinct usernames give distinct keys of the same kind. */
  lemma KeysAreInjective(u: string, v: string)
    ensures UserBankKey(u) == UserBankKey(v) ==> u == v
    ensures UserSolvedKey(u) == UserSolvedKey(v) ==> u == v
  {
    if UserBankKey(u) == UserBankKey(v) {
      assert u == UserBankKey(u)[5..5 + |u|];
      assert v == UserBankKey(v)[5..5 + |v|];
    }
    if UserSolvedKey(u) == UserSolvedKey(v) {
      assert u == UserSolvedKey(u)[5..5 + |u|];
      assert v == UserSolvedKey(v)[5..5 + |v|];
    }
  }

  // ---------------------------------------------------------------- bank balance

  /** What getUserBank reads: 0 for a missing or empty value, otherwise parseInt of the text. */
  function BankOf(strings: map<string, string>, username: string): (r: Parsed)
    ensures UserBankKey(username) !in strings ==> r == Number(0)
    ensures UserBankKey(username) in strings && strings[UserBankKey(username)] == "" ==> r == Number(0)
    ensures UserBankKey(username) in strings && StrictInt(strings[UserBankKey(username)]).Some? ==>
              r == Number(StrictInt(strings[UserBankKey(username)]).value)
  {
    var key := UserBankKey(username);
    if key !in strings || strings[key] == "" then Number(0) else ParseInt(strings[key])
  }

  method GetUserBank(db: RedisStore, username: string) returns (balance: Parsed)
    ensures balance == BankOf(db.strings, username)
  {
    var value := db.Get(UserBankKey(username));
    if value.None? || value.value == "" {
      balance := Number(0);
    } else {
      balance := ParseInt(value.value);
    }
  }

  /** setUserBank stores the decimal text of the balance under the user's bank key. */
  method SetUserBank(db: RedisStore, username: string, balance: int)
    requires db.Valid()
    modifies db
    ensures db.Valid()
    ensures db.strings == old(db.strings)[UserBankKey(username) := IntToString(balance)]
    ensures db.sets == old(db.sets) && db.zsets == old(db.zsets)
  {
    db.Set(UserBankKey(username), IntToString(balance));
  }

  /** Reading back a balance just set yields that balance, for every user and every integer. */
  lemma SetThenGetBank(strings: map<string, string>, username: string, balance: int)
    ensures BankOf(strings[UserBankKey(username) := IntToString(balance)], username) == Number(balance)
  {
    ParseIntOfIntToString(balance);
    assert IntToString(balance) != "" by {
      if balance >= 0 { assert |NatToString(balance)| >= 1; }
    }
  }

  /** Setting one user's balance leaves every other user's balance as it was. */
  lemma SetBankKeepsOthers(strings: map<string, string>, u: string, v: string, balance: int)
    requires u != v
    ensures BankOf(strings[UserBankKey(u) := IntToString(balance)], v) == BankOf(strings, v)
  {
    KeysAreInjective(u, v);
  }

  function Sum(xs: seq<int>): int {
    if |xs| == 0 then 0 else Sum(xs[..|xs| - 1]) + xs[|xs| - 1]
  }

  /** The string map after INCRBY key by each amount in turn, starting from a key that holds an integer. */
  function ApplyIncrements(strings: map<string, string>, key: string, amounts: seq<int>): (r: map<string, string>)
    requires StoredInt(strings, key).Some?
    ensures StoredInt(r, key) == Some(StoredInt(strings, key).value + Sum(amounts))
    ensures |amounts| > 0 ==> key in r && r[key] == IntToString(StoredInt(r, key).value)
    ensures forall k :: k != key ==> (k in r <==> k in strings) && (k in r ==> r[k] == strings[k])
  {
    if |amounts| == 0 then strings
    else
      var before := ApplyIncrements(strings, key, amounts[..|amounts| - 1]);
      var v := StoredInt(before, key).value + amounts[|amounts| - 1];
      StoredIntOfSet(before, key, v);
      before[key := IntToString(v)]
  }

  /** updateUserBank: INCRBY on the user's bank key; the result is the new balance. */
  method UpdateUserBank(db: RedisStore, username: string, amount: int) returns (newBalance: Option<int>)
    requires db.Valid()
    modifies db
    ensures db.Valid()
    ensures newBalance.Some? <==> StoredInt(old(db.strings), UserBankKey(username)).Some?
    ensures newBalance.Some? ==>
              newBalance.value == StoredInt(old(db.strings), UserBankKey(username)).value + amount
              && db.strings == ApplyIncrements(old(db.strings), UserBankKey(username), [amount])
    ensures newBalance.None? ==> db.strings == old(db.strings)
    ensures db.sets == old(db.sets) && db.zsets == old(db.zsets)
  {
    newBalance := db.IncrBy(UserBankKey(username), amount);
    assert [amount][..0] == [];
  }

  /** A run of increments leaves the balance getUserBank reads at the starting balance plus their sum. */
  lemma IncrementsAccumulate(strings: map<string, string>, username: string, amounts: seq<int>)
    requires StoredInt(strings, UserBankKey(username)).Some?
    ensures BankOf(ApplyIncrements(strings, UserBankKey(username), amounts), username)
            == Number(StoredInt(strings, UserBankKey(username)).value + Sum(amounts))
  {
    var key := UserBankKey(username);
    var r := ApplyIncrements(strings, key, amounts);
    var v := StoredInt(r, key).value;
    if key in r {
      assert r[key] == IntToString(v);
      assert r == r[key := IntToString(v)];
      SetThenGetBank(r, username, v);
    }
  }

  lemma ApplyOne(strings: map<string, string>, key: string, amount: int)
    requires StoredInt(strings, key).Some?
    ensures ApplyIncrements(strings, key, [amount])
            == strings[key := IntToString(StoredInt(strings, key).value + amount)]
  {
    assert [amount][..0] == [];
  }

  lemma ApplySnoc(strings: map<string, string>, key: string, amounts: seq<int>, amount: int)
    requires StoredInt(strings, key).Some?
    ensures var before := ApplyIncrements(strings, key, amounts);
      ApplyIncrements(strings, key, amounts + [amount])
      == before[key := IntToString(StoredInt(before, key).value + amount)]
  {
    var longer := amounts + [amount];
    assert longer[..|longer| - 1] == amounts;
  }

  /** One more updateUserBank after a run of them is the run with that amount appended. */
  lemma IncrementsCompose(strings: map<string, string>, key: string, amounts: seq<int>, amount: int)
    requires StoredInt(strings, key).Some?
    ensures ApplyIncrements(ApplyIncrements(strings, key, amounts), key, [amount])
            == ApplyIncrements(strings, key, amounts + [amount])
  {
    ApplyOne(ApplyIncrements(strings, key, amounts), key, amount);
    ApplySnoc(strings, key, amounts, amount);
  }

  // ---------------------------------------------------------------- solved words

  function SolvedWords(sets: map<string, set<string>>, username: string): set<string> {
    var key := UserSolvedKey(username);
    if key in sets then sets[key] else {}
  }

  /** The set map after addSolvedWord: the upper-cased word joins the user's set. */
  function WithSolvedWord(sets: map<string, set<string>>, username: string, word: string): (r: map<string, set<string>>)
    ensures SolvedWords(r, username) == SolvedWords(sets, username) + {ToUpper(word)}
  {
    sets[UserSolvedKey(username) := SolvedWords(sets, username) + {ToUpper(word)}]
  }

  method AddSolvedWord(db: RedisStore, username: string, word: string)
    requires db.Valid()
    modifies db
    ensures db.Valid()
    ensures db.sets == WithSolvedWord(old(db.sets), username, word)
    ensures db.strings == old(db.strings) && db.zsets == old(db.zsets)
  {
    db.SAdd(UserSolvedKey(username), [ToUpper(word)]);
    assert (set m | m in [ToUpper(word)]) == {ToUpper(word)};
  }

  method GetSolvedWords(db: RedisStore, username: string) returns (words: set<string>)
    ensures words == SolvedWords(db.sets, username)
  {
    words := db.SMembers(UserSolvedKey(username));
  }

  method HasSolvedWord(db: RedisStore, username: string, word: string) returns (solved: bool)
    ensures solved <==> ToUpper(word) in SolvedWords(db.sets, username)
  {
    solved := db.SIsMember(UserSolvedKey(username), ToUpper(word));
  }

  /** Recording a word twice is the same as recording it once. */
  lemma AddSolvedWordIdempotent(sets: map<string, set<string>>, username: string, word: string)
    ensures WithSolvedWord(WithSolvedWord(sets, username, word), username, word) == WithSolvedWord(sets, username, word)
  {
  }

  /** After recording a word, it is solved under every spelling with the same upper-case form, and listed. */
  lemma SolvedAfterAdd(sets: map<string, set<string>>, username: string, word: string, other: string)
    requires ToUpper(other) == ToUpper(word)
    ensures ToUpper(other) in SolvedWords(WithSolvedWord(sets, username, word), username)
    ensures ToUpper(word) in SolvedWords(WithSolvedWord(sets, username, word), username)
  {
  }

  /** Recording a word for one user changes no other user's solved words. */
  lemma AddSolvedKeepsOthers(sets: map<string, set<string>>, u: string, v: string, word: string)
    requires u != v
    ensures SolvedWords(WithSolvedWord(sets, u, word), v) == SolvedWords(sets, v)
  {
    KeysAreInjective(u, v);
  }

  /** Every stored solved word stays in upper case. */
  lemma SolvedWordsStayUpper(sets: map<string, set<string>>, username: string, word: string)
    requires forall w :: w in SolvedWords(sets, username) ==> ToUpper(w) == w
    ensures forall w :: w in SolvedWords(WithSolvedWord(sets, username, word), username) ==> ToUpper(w) == w
  {
    ToUpperIdempotent(word);
  }

  // ---------------------------------------------------------------- leaderboard

  datatype LeaderboardEntry = LeaderboardEntry(username: string, bank: int, rank: nat)

  function Board(zsets: map<string, seq<ZEntry>>): seq<ZEntry> {
    if LeaderboardKey in zsets then zsets[LeaderboardKey] else []
  }

  method UpdateLeaderboard(db: RedisStore, username: string, newBank: int)
    requires db.Valid()
    modifies db
    ensures db.Valid()
    ensures db.zsets == old(db.zsets)[LeaderboardKey := ZAddEntry(Board(old(db.zsets)), username, newBank)]
    ensures db.strings == old(db.strings) && db.sets == old(db.sets)
  {
    db.ZAdd(LeaderboardKey, username, newBank);
  }

  /** After updateLeaderboard the user has exactly one entry, with the new score; other entries are kept. */
  lemma OneEntryPerUser(board: seq<ZEntry>, username: string, newBank: int)
    requires Ranked(board)
    ensures var b := ZAddEntry(board, username, newBank);
      && RankOf(b, username).Some?
      && b[RankOf(b, username).value] == ZEntry(username, newBank)
      && (forall j :: 0 <= j < |b| && b[j].member == username ==> j == RankOf(b, username).value)
      && (forall x: ZEntry :: x.member != username ==> (x in b <==> x in board))
  {
    var b := ZAddEntry(board, username, newBank);
    assert ZEntry(username, newBank) in b;
    var i := RankOf(b, username).value;
    var k :| 0 <= k < |b| && b[k] == ZEntry(username, newBank);
    assert k == i;
  }

  /** The entries getLeaderboard reports for a board: ranks by position, from ZRANGE 0 .. limit-1 REV. */
  function TopEntries(board: seq<ZEntry>, limit: int): (r: seq<LeaderboardEntry>)
    ensures |r| <= |board|
    ensures forall i :: 0 <= i < |r| ==> r[i].rank == i + 1
  {
    var results := RangeByRank(board, 0, limit - 1);
    seq(|results|, i requires 0 <= i < |results| => LeaderboardEntry(results[i].member, results[i].score, i + 1))
  }

  lemma TopEntriesArePrefix(board: seq<ZEntry>, limit: int)
    ensures limit >= 1 ==> |TopEntries(board, limit)| == if limit < |board| then limit else |board|
    ensures var r := TopEntries(board, limit);
      forall i :: 0 <= i < |r| ==>
        r[i] == LeaderboardEntry(board[i].member, board[i].score, i + 1)
  {
  }

  method GetLeaderboard(db: RedisStore, limit: int) returns (entries: seq<LeaderboardEntry>)
    requires db.Valid()
    ensures entries == TopEntries(Board(db.zsets), limit)
    ensures limit >= 1 ==> |entries| == if limit < |Board(db.zsets)| then limit else |Board(db.zsets)|
    ensures forall i :: 0 <= i < |entries| ==>
              entries[i] == LeaderboardEntry(Board(db.zsets)[i].member, Board(db.zsets)[i].score, i + 1)
    ensures forall i, j :: 0 <= i < j < |entries| ==> entries[i].bank >= entries[j].bank
  {
    var results := db.ZRangeRev(LeaderboardKey, 0, limit - 1);
    entries := seq(|results|, i requires 0 <= i < |results| => LeaderboardEntry(results[i].member, results[i].score, i + 1));
    TopEntriesArePrefix(Board(db.zsets), limit);
    assert LeaderboardKey in db.zsets ==> Ranked(db.zsets[LeaderboardKey]);
  }

  /** As written, a limit of 0 asks ZRANGE for ranks 0..-1, which Redis reads as the whole board. */
  lemma ZeroLimitReturnsWholeBoard(board: seq<ZEntry>)
    requires |board| > 0
    ensures |TopEntries(board, 0)| == |board| > 0
  {
  }

  /** getLeaderboard with the limit honoured for every value: no entries for a limit of 0 or less. */
  method GetLeaderboardCapped(db: RedisStore, limit: int) returns (entries: seq<LeaderboardEntry>)
    requires db.Valid()
    ensures |entries| <= |Board(db.zsets)| && (limit <= 0 ==> entries == []) && (limit > 0 ==> |entries| <= limit)
    ensures limit >= 1 ==> entries == TopEntries(Board(db.zsets), limit)
    ensures forall i :: 0 <= i < |entries| ==>
              entries[i] == LeaderboardEntry(Board(db.zsets)[i].member, Board(db.zsets)[i].score, i + 1)
  {
    if limit <= 0 {
      entries := [];
    } else {
      entries := GetLeaderboard(db, limit);
    }
  }

  /** getUserRank: the 1-based position from the top, or none for a user not on the board. */
  method GetUserRank(db: RedisStore, username: string) returns (rank: Option<nat>)
    requires db.Valid()
    ensures rank.None? <==> username !in Members(Board(db.zsets))
    ensures rank.Some? ==> 1 <= rank.value <= |Board(db.zsets)| && Board(db.zsets)[rank.value - 1].member == username
    ensures rank.Some? ==> forall j :: 0 <= j < |Board(db.zsets)| ==>
              (j < rank.value - 1 <==> Above(Board(db.zsets)[j], Board(db.zsets)[rank.value - 1]))
  {
    var r := db.ZRevRank(LeaderboardKey, username);
    if r.None? {
      rank := None;
    } else {
      rank := Some(r.value + 1);
      var board := Board(db.zsets);
      assert Ranked(board);
      forall j | 0 <= j < |board| ensures j < r.value <==> Above(board[j], board[r.value]) {
        RankIsOrder(board, r.value, j);
      }
    }
  }
}
