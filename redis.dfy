/**
 * An in-memory model of the Redis commands the ledger service issues: GET, SET, INCRBY
 * on strings; SADD, SMEMBERS, SISMEMBER on sets; ZADD, ZRANGE ... REV and ZREVRANK on
 * sorted sets. A sorted set is kept as the sequence ZRANGE ... REV reports: highest
 * score first, equal scores in reverse byte order of their members.
 */
module Redis {
  import opened Wrappers
  import opened Decimal

  datatype ZEntry = ZEntry(member: string, score: int)

  // ---------------------------------------------------------------- member order

  /** Lexicographic order on strings, the order Redis uses for members with equal scores. */
  predicate LexLess(a: string, b: string) {
    if |b| == 0 then false
    else if |a| == 0 then true
    else if a[0] != b[0] then a[0] < b[0]
    else LexLess(a[1..], b[1..])
  }

  lemma {:induction false} LexAsymmetric(a: string, b: string)
    ensures !(LexLess(a, b) && LexLess(b, a))
  {
    if |a| > 0 && |b| > 0 && a[0] == b[0] { LexAsymmetric(a[1..], b[1..]); }
  }

  lemma {:induction false} LexTransitive(a: string, b: string, c: string)
    requires LexLess(a, b) && LexLess(b, c)
    ensures LexLess(a, c)
  {
    if |a| > 0 && a[0] == b[0] && b[0] == c[0] { LexTransitive(a[1..], b[1..], c[1..]); }
  }

  lemma {:induction false} LexTotal(a: string, b: string)
    requires a != b
    ensures LexLess(a, b) || LexLess(b, a)
  {
    if |a| > 0 && |b| > 0 && a[0] == b[0] {
      assert a == [a[0]] + a[1..] && b == [b[0]] + b[1..];
      LexTotal(a[1..], b[1..]);
    }
  }

  /** x comes before y in descending order. */
  predicate Above(x: ZEntry, y: ZEntry) {
    x.score > y.score || (x.score == y.score && LexLess(y.member, x.member))
  }

  lemma AboveTransitive(x: ZEntry, y: ZEntry, z: ZEntry)
    requires Above(x, y) && Above(y, z)
    ensures Above(x, z)
  {
    if x.score == y.score == z.score { LexTransitive(z.member, y.member, x.member); }
  }

  lemma AboveAsymmetric(x: ZEntry, y: ZEntry)
    ensures !(Above(x, y) && Above(y, x))
  {
    LexAsymmetric(x.member, y.member);
  }

  lemma AboveTotal(x: ZEntry, y: ZEntry)
    requires x.member != y.member
    ensures Above(x, y) || Above(y, x)
  {
    LexTotal(x.member, y.member);
  }

  /** A well-formed reversed sorted set: strictly descending, one entry per member. */
  ghost predicate Ranked(s: seq<ZEntry>) {
    && (forall i, j :: 0 <= i < j < |s| ==> Above(s[i], s[j]))
    && (forall i, j :: 0 <= i < j < |s| ==> s[i].member != s[j].member)
  }

  function Members(s: seq<ZEntry>): set<string> {
    set x | x in s :: x.member
  }

  // ---------------------------------------------------------------- sorted-set updates

  function RemoveMember(s: seq<ZEntry>, m: string): (r: seq<ZEntry>)
    ensures forall x :: x in r <==> x in s && x.member != m
    ensures Ranked(s) ==> Ranked(r)
  {
    if |s| == 0 then []
    else
      var rest := RemoveMember(s[1..], m);
      if s[0].member == m then rest else [s[0]] + rest
  }

  lemma AboveAll(e: ZEntry, s: seq<ZEntry>)
    requires Ranked(s) && |s| > 0 && Above(e, s[0])
    ensures forall j :: 0 <= j < |s| ==> Above(e, s[j])
  {
    forall j | 0 < j < |s| ensures Above(e, s[j]) { AboveTransitive(e, s[0], s[j]); }
  }

  lemma ConsRanked(x: ZEntry, rest: seq<ZEntry>)
    requires Ranked(rest)
    requires forall y :: y in rest ==> Above(x, y) && x.member != y.member
    ensures Ranked([x] + rest)
  {
    var r := [x] + rest;
    forall i, j | 0 <= i < j < |r| ensures Above(r[i], r[j]) && r[i].member != r[j].member {
      if i == 0 { assert r[j] == rest[j - 1] && rest[j - 1] in rest; }
      else { assert r[i] == rest[i - 1] && r[j] == rest[j - 1]; }
    }
  }

  /** Insert an entry for a member not yet present at the place its score and name give it. */
  function Insert(s: seq<ZEntry>, e: ZEntry): (r: seq<ZEntry>)
    requires Ranked(s) && e.member !in Members(s)
    ensures Ranked(r)
    ensures forall x :: x in r <==> x in s || x == e
  {
    if |s| == 0 then [e]
    else if Above(e, s[0]) then
      AboveAll(e, s);
      [e] + s
    else
      assert s[0] in s;
      AboveTotal(e, s[0]);
      assert e.member !in Members(s[1..]);
      var rest := Insert(s[1..], e);
      assert forall y :: y in rest ==> Above(s[0], y) && s[0].member != y.member by {
        forall y | y in rest ensures Above(s[0], y) && s[0].member != y.member {
          if y != e {
            var k :| 0 <= k < |s[1..]| && s[1..][k] == y;
            assert s[k + 1] == y;
          }
        }
      }
      ConsRanked(s[0], rest);
      [s[0]] + rest
  }

  /** ZADD of one member: its old entry, if any, is replaced. */
  function ZAddEntry(s: seq<ZEntry>, m: string, score: int): (r: seq<ZEntry>)
    requires Ranked(s)
    ensures Ranked(r)
    ensures forall x :: x in r <==> (x in s && x.member != m) || x == ZEntry(m, score)
  {
    Insert(RemoveMember(s, m), ZEntry(m, score))
  }

  /** A ZRANGE index: a negative one counts back from the end. */
  function NormIndex(n: nat, x: int): int { if x < 0 then x + n else x }

  /** ZRANGE start stop asks for every rank between the two indices, both included. */
  predicate Selected(n: nat, start: int, stop: int, i: int) {
    NormIndex(n, start) <= i <= NormIndex(n, stop)
  }

  /**
   * The ranks start..stop (inclusive) of ZRANGE: a negative index counts from the end,
   * the start is clamped at 0 and the stop at the last rank.
   */
  function RangeByRank(s: seq<ZEntry>, start: int, stop: int): (r: seq<ZEntry>)
    ensures |r| <= |s|
    ensures var lo := if NormIndex(|s|, start) < 0 then 0 else NormIndex(|s|, start);
      && (|r| > 0 ==> lo + |r| <= |s|)
      && (forall k :: 0 <= k < |r| ==> r[k] == s[lo + k])
      && (forall i :: 0 <= i < |s| ==> (Selected(|s|, start, stop, i) <==> lo <= i < lo + |r|))
  {
    var n := |s|;
    var a := if start < 0 then start + n else start;
    var b := if stop < 0 then stop + n else stop;
    var a := if a < 0 then 0 else a;
    if a > b || a >= n then [] else s[a..if b >= n then n else b + 1]
  }

  /** The position of a member, ZREVRANK's answer. */
  function RankOf(s: seq<ZEntry>, m: string): (r: Option<nat>)
    ensures r.None? <==> m !in Members(s)
    ensures r.Some? ==> r.value < |s| && s[r.value].member == m
  {
    if |s| == 0 then None
    else if s[0].member == m then Some(0)
    else
      var k := RankOf(s[1..], m);
      assert Members(s) == {s[0].member} + Members(s[1..]);
      if k.None? then None else Some(k.value + 1)
  }

  /** In a ranked set, position order is score order: j is before i exactly when s[j] ranks above s[i]. */
  lemma RankIsOrder(s: seq<ZEntry>, i: nat, j: nat)
    requires Ranked(s) && i < |s| && j < |s|
    ensures j < i <==> Above(s[j], s[i])
  {
    AboveAsymmetric(s[i], s[j]);
    if i == j { LexAsymmetric(s[i].member, s[i].member); }
  }

  // ---------------------------------------------------------------- strings holding integers

  /** The integer INCRBY accepts: the exact decimal form of an integer. */
  function StrictInt(s: string): Option<int> {
    match ParseInt(s)
    case Number(v) => if IntToString(v) == s then Some(v) else None
    case NaN => None
  }

  lemma StrictIntOfIntToString(n: int)
    ensures StrictInt(IntToString(n)) == Some(n)
  {
    ParseIntOfIntToString(n);
  }

  /** The integer a key holds for INCRBY: 0 when absent, none when its text is not an integer. */
  function StoredInt(strings: map<string, string>, key: string): Option<int> {
    if key !in strings then Some(0) else StrictInt(strings[key])
  }

  /** A key just set to `n.toString()` holds the integer n for INCRBY. */
  lemma StoredIntOfSet(strings: map<string, string>, key: string, n: int)
    ensures StoredInt(strings[key := IntToString(n)], key) == Some(n)
  {
    StrictIntOfIntToString(n);
  }

  // ---------------------------------------------------------------- the store

  class RedisStore {
    var strings: map<string, string>
    var sets: map<string, set<string>>
    var zsets: map<string, seq<ZEntry>>

    ghost predicate Valid()
      reads this
    {
      forall k :: k in zsets ==> Ranked(zsets[k])
    }

    constructor ()
      ensures Valid()
      ensures strings == map[] && sets == map[] && zsets == map[]
    {
      strings, sets, zsets := map[], map[], map[];
    }

    method Get(key: string) returns (v: Option<string>)
      ensures v.Some? <==> key in strings
      ensures v.Some? ==> v.value == strings[key]
    {
      v := if key in strings then Some(strings[key]) else None;
    }

    method Set(key: string, value: string)
      requires Valid()
      modifies this
      ensures Valid()
      ensures strings == old(strings)[key := value]
      ensures sets == old(sets) && zsets == old(zsets)
    {
      strings := strings[key := value];
    }

    /** INCRBY: add to the integer under key (0 when absent) and store the sum; fails on a non-integer. */
    method IncrBy(key: string, delta: int) returns (r: Option<int>)
      requires Valid()
      modifies this
      ensures Valid()
      ensures r.Some? <==> StoredInt(old(strings), key).Some?
      ensures r.Some? ==> r.value == StoredInt(old(strings), key).value + delta
                          && strings == old(strings)[key := IntToString(r.value)]
      ensures r.None? ==> strings == old(strings)
      ensures sets == old(sets) && zsets == old(zsets)
    {
      var current := StoredInt(strings, key);
      if current.None? {
        r := None;
      } else {
        var sum := current.value + delta;
        strings := strings[key := IntToString(sum)];
        r := Some(sum);
      }
    }

    method SAdd(key: string, members: seq<string>)
      requires Valid()
      modifies this
      ensures Valid()
      ensures sets == old(sets)[key := (if key in old(sets) then old(sets)[key] else {}) + set m | m in members]
      ensures strings == old(strings) && zsets == old(zsets)
    {
      var current := if key in sets then sets[key] else {};
      sets := sets[key := current + set m | m in members];
    }

    method SMembers(key: string) returns (members: set<string>)
      ensures members == if key in sets then sets[key] else {}
    {
      members := if key in sets then sets[key] else {};
    }

    method SIsMember(key: string, m: string) returns (b: bool)
      ensures b <==> key in sets && m in sets[key]
    {
      b := key in sets && m in sets[key];
    }

    /** ZADD key score member: adds the member or moves it to its new score. */
    method ZAdd(key: string, member: string, score: int)
      requires Valid()
      modifies this
      ensures Valid()
      ensures key in zsets
      ensures zsets == old(zsets)[key := ZAddEntry(if key in old(zsets) then old(zsets)[key] else [], member, score)]
      ensures strings == old(strings) && sets == old(sets)
    {
      var current := if key in zsets then zsets[key] else [];
      zsets := zsets[key := ZAddEntry(current, member, score)];
    }

    /** ZRANGE key start stop REV (by rank). */
    method ZRangeRev(key: string, start: int, stop: int) returns (r: seq<ZEntry>)
      ensures r == RangeByRank(if key in zsets then zsets[key] else [], start, stop)
    {
      r := RangeByRank(if key in zsets then zsets[key] else [], start, stop);
    }

    /** ZREVRANK key member: the 0-based position from the top, or none for a missing member. */
    method ZRevRank(key: string, member: string) returns (r: Option<nat>)
      ensures r == RankOf(if key in zsets then zsets[key] else [], member)
    {
      r := RankOf(if key in zsets then zsets[key] else [], member);
    }
  }
}
