/** The highscore ledger (server.js, `highscores`: per category a list of
    entries, at most one per user, ranked on demand). */
module Highscores {
  import opened Sorting
  import opened Js

  datatype Entry = Entry(username: string, score: int, totalQuestions: int, timestamp: int)

  /** `findIndex(entry => entry.username === username)`. */
  function FindUser(entries: seq<Entry>, username: string): (i: int)
    ensures -1 <= i < |entries|
    ensures i == -1 <==> forall k :: 0 <= k < |entries| ==> entries[k].username != username
    ensures 0 <= i ==> entries[i].username == username && forall k :: 0 <= k < i ==> entries[k].username != username
  {
    FindIndex(entries, (e: Entry) => e.username == username)
  }

  /** No two entries belong to the same user. */
  predicate UniqueUsers(entries: seq<Entry>) {
    forall i, j :: 0 <= i < j < |entries| ==> entries[i].username != entries[j].username
  }

  /** Record a score for `username`: a new user is appended; a known user's
      entry is replaced in place when the score is strictly higher, and
      otherwise nothing changes. The flag is `isNewHighscore`. */
  function Upsert(entries: seq<Entry>, username: string, score: int, totalQuestions: int, now: int): (r: (seq<Entry>, bool))
    ensures var i := FindUser(entries, username);
      && |r.0| == |entries| + (if i == -1 then 1 else 0)
      && (r.1 ==> r.0[if i == -1 then |entries| else i] == Entry(username, score, totalQuestions, now))
      && (!r.1 ==> r.0 == entries && entries[i].score >= score)
  {
    var i := FindUser(entries, username);
    if i == -1 then (entries + [Entry(username, score, totalQuestions, now)], true)
    else if score > entries[i].score then (entries[i := Entry(username, score, totalQuestions, now)], true)
    else (entries, false)
  }

  /** What an upsert does, told apart by whether the user was known. Only
      the user's first entry is compared and replaced; every other entry,
      a later one of the same user included, is kept. */
  lemma UpsertEffect(entries: seq<Entry>, username: string, score: int, totalQuestions: int, now: int)
    ensures var (r, isNew) := Upsert(entries, username, score, totalQuestions, now);
      var e := Entry(username, score, totalQuestions, now);
      && ((forall k :: 0 <= k < |entries| ==> entries[k].username != username) ==>
            isNew && r == entries + [e])
      && (forall k :: 0 <= k < |entries| && entries[k].username == username &&
                      (forall j :: 0 <= j < k ==> entries[j].username != username) ==>
            if score > entries[k].score
            then isNew && r == entries[k := e]
            else !isNew && r == entries)
      && (forall k :: 0 <= k < |entries| && k != FindUser(entries, username) ==> r[k] == entries[k])
  {
    var i := FindUser(entries, username);
    forall k | 0 <= k < |entries| && entries[k].username == username &&
               (forall j :: 0 <= j < k ==> entries[j].username != username)
      ensures k == i
    {
      assert 0 <= i <= k;
    }
  }

  /** The new entry, or the kept one, is in the ledger after the upsert,
      and `isNewHighscore` says the ledger changed. */
  lemma UpsertKeepsBest(entries: seq<Entry>, username: string, score: int, totalQuestions: int, now: int)
    ensures var (r, isNew) := Upsert(entries, username, score, totalQuestions, now);
      && |r| == |entries| + (if FindUser(entries, username) == -1 then 1 else 0)
      && (isNew <==> r != entries)
      && (isNew ==> Entry(username, score, totalQuestions, now) in r)
      && (!isNew ==> exists k :: 0 <= k < |r| && r[k].username == username && r[k].score >= score)
  {
    var i := FindUser(entries, username);
    var (r, isNew) := Upsert(entries, username, score, totalQuestions, now);
    if i == -1 {
      assert |r| != |entries|;
    } else if score > entries[i].score {
      assert r[i] != entries[i];
    }
  }

  /** At most one entry per user, upsert after upsert. */
  lemma UpsertKeepsUnique(entries: seq<Entry>, username: string, score: int, totalQuestions: int, now: int)
    requires UniqueUsers(entries)
    ensures UniqueUsers(Upsert(entries, username, score, totalQuestions, now).0)
  {
  }

  /** Usernames present before are still present. */
  lemma UpsertKeepsUsers(entries: seq<Entry>, username: string, score: int, totalQuestions: int, now: int)
    ensures var r := Upsert(entries, username, score, totalQuestions, now).0;
      forall k :: 0 <= k < |entries| ==> exists m :: 0 <= m < |r| && r[m].username == entries[k].username
  {
    var r := Upsert(entries, username, score, totalQuestions, now).0;
    forall k | 0 <= k < |entries| ensures exists m :: 0 <= m < |r| && r[m].username == entries[k].username {
      assert r[k].username == entries[k].username;
    }
  }

  // ---------------------------------------------------------------------------
  // Ranking

  /** The comparator `b.score - a.score`, then `a.timestamp - b.timestamp`:
      `a` goes first when it scores higher, or scores the same earlier. */
  predicate RankBefore(a: Entry, b: Entry): (r: bool)
    ensures r ==> a.score >= b.score
    ensures a.score > b.score ==> r
  {
    a.score > b.score || (a.score == b.score && a.timestamp < b.timestamp)
  }

  lemma RankBeforeOrder()
    ensures StrictWeakOrder(RankBefore)
  {
  }

  /** The in-place sort of the stored list. */
  function Ranked(entries: seq<Entry>): (r: seq<Entry>)
    ensures multiset(r) == multiset(entries) && |r| == |entries|
  {
    SortBy(entries, RankBefore)
  }

  /** `.slice(0, 10)` of the ranking. */
  function TopTen(entries: seq<Entry>): (r: seq<Entry>)
    ensures |r| == if |entries| < 10 then |entries| else 10
  {
    var ranked := Ranked(entries);
    ranked[..if |ranked| < 10 then |ranked| else 10]
  }

  /** The ranking is by score descending, then by timestamp ascending. */
  lemma RankedSorted(entries: seq<Entry>)
    ensures forall i, j :: 0 <= i < j < |Ranked(entries)| ==>
      Ranked(entries)[i].score > Ranked(entries)[j].score ||
      (Ranked(entries)[i].score == Ranked(entries)[j].score && Ranked(entries)[i].timestamp <= Ranked(entries)[j].timestamp)
  {
    RankBeforeOrder();
    SortBySorted(entries, RankBefore);
  }

  lemma RankedSortedBy(entries: seq<Entry>)
    ensures SortedBy(Ranked(entries), RankBefore)
  {
    RankBeforeOrder();
    SortBySorted(entries, RankBefore);
  }

  /** The top ten are sorted, come from the ledger, and no entry left out
      ranks before one that was kept. */
  lemma TopTenBest(entries: seq<Entry>)
    ensures var top := TopTen(entries);
      && (forall i, j :: 0 <= i < j < |top| ==> !RankBefore(top[j], top[i]))
      && multiset(top) <= multiset(entries)
      && forall x, e :: x in multiset(entries) - multiset(top) && e in top ==> !RankBefore(x, e)
  {
    var ranked := Ranked(entries);
    var n := if |ranked| < 10 then |ranked| else 10;
    var top, rest := ranked[..n], ranked[n..];
    TopTenSorted(entries);
    PrefixBeatsRest(entries, n);
    assert ranked == top + rest;
    assert multiset(entries) - multiset(top) == multiset(rest);
  }

  lemma TopTenSorted(entries: seq<Entry>)
    ensures var top := TopTen(entries);
      forall i, j :: 0 <= i < j < |top| ==> !RankBefore(top[j], top[i])
  {
    RankedSortedBy(entries);
  }

  /** In the ranking, nothing past position n ranks before anything before
      it. */
  lemma PrefixBeatsRest(entries: seq<Entry>, n: nat)
    requires n <= |entries|
    ensures var ranked := Ranked(entries);
      forall x, e :: x in ranked[n..] && e in ranked[..n] ==> !RankBefore(x, e)
  {
    var ranked := Ranked(entries);
    RankedSortedBy(entries);
    forall x, e | x in ranked[n..] && e in ranked[..n] ensures !RankBefore(x, e) {
      var k :| 0 <= k < |ranked[n..]| && ranked[n..][k] == x;
      var i :| 0 <= i < n && ranked[..n][i] == e;
      assert ranked[i] == e && ranked[n + k] == x;
    }
  }

  /** A permutation of a ledger without duplicate users has none either;
      storing the ranking back keeps the ledger one entry per user. */
  lemma RankedKeepsUnique(entries: seq<Entry>)
    requires UniqueUsers(entries)
    ensures UniqueUsers(Ranked(entries))
  {
    var r := Ranked(entries);
    UniqueCounts(entries);
    forall i, j | 0 <= i < j < |r| ensures r[i].username != r[j].username {
      PairCount(r, i, j);
      assert r[i] in multiset(r) && r[j] in multiset(r);
    }
  }

  /** Without duplicate users every entry occurs once, and two entries with
      the same username are the same entry. */
  lemma UniqueCounts(entries: seq<Entry>)
    requires UniqueUsers(entries)
    ensures forall x :: x in multiset(entries) ==> multiset(entries)[x] == 1
    ensures forall x, y :: x in multiset(entries) && y in multiset(entries) && x.username == y.username ==> x == y
  {
    forall x | x in multiset(entries) ensures multiset(entries)[x] == 1 {
      var p :| 0 <= p < |entries| && entries[p] == x;
      MultisetAtMostOnce(entries, p);
    }
  }

  /** The same entry at two positions occurs at least twice. */
  lemma PairCount(r: seq<Entry>, i: int, j: int)
    requires 0 <= i < j < |r|
    ensures r[i] == r[j] ==> multiset(r)[r[i]] >= 2
  {
    if r[i] == r[j] {
      assert r == r[..j] + [r[j]] + r[j + 1..];
      assert r[..j][i] == r[i];
      assert multiset(r[..j])[r[i]] >= 1;
    }
  }

  /** In a ledger without duplicate users each entry occurs once. */
  lemma {:induction false} MultisetAtMostOnce(entries: seq<Entry>, p: int)
    requires UniqueUsers(entries) && 0 <= p < |entries|
    ensures multiset(entries)[entries[p]] == 1
    decreases |entries|
  {
    var last := |entries| - 1;
    var prefix := entries[..last];
    assert entries == prefix + [entries[last]];
    assert UniqueUsers(prefix);
    if p == last {
      assert entries[p] !in prefix;
    } else {
      MultisetAtMostOnce(prefix, p);
      assert prefix[p] == entries[p] != entries[last];
    }
  }
}
