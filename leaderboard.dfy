/**
 * The leaderboard of backend/socketHandler.js: the player views sorted with
 * `Array.prototype.sort` (a stable sort) under the comparator
 * `(a, b) => b.bestBulls - a.bestBulls`, falling back to
 * `a.guessCount - b.guessCount` on equal bulls.
 */
module Leaderboard {
  import opened RoomManager

  /** The comparator is negative: `a` ranks strictly before `b`. */
  predicate Ahead(a: PlayerView, b: PlayerView) {
    a.bestBulls > b.bestBulls || (a.bestBulls == b.bestBulls && a.guessCount < b.guessCount)
  }

  /** The comparator is zero: same best bulls and same number of guesses. */
  predicate Tied(a: PlayerView, b: PlayerView) {
    a.bestBulls == b.bestBulls && a.guessCount == b.guessCount
  }

  /** No entry ranks strictly before an entry listed ahead of it. */
  predicate Ranked(s: seq<PlayerView>) {
    forall i, j | 0 <= i < j < |s| :: !Ahead(s[j], s[i])
  }

  /** Puts `x` after every leading entry it does not rank strictly before. */
  function Insert(s: seq<PlayerView>, x: PlayerView): seq<PlayerView> {
    if s == [] then [x]
    else if Ahead(x, s[0]) then [x] + s
    else [s[0]] + Insert(s[1..], x)
  }

  /** The leaderboard order: each entry is inserted, in membership order, into the ranked list of the ones before it. */
  function Sort(s: seq<PlayerView>): seq<PlayerView> {
    if s == [] then [] else Insert(Sort(s[..|s| - 1]), s[|s| - 1])
  }

  /** Inserting into a ranked list keeps it ranked and adds exactly the new entry. */
  lemma {:induction false} InsertRanked(s: seq<PlayerView>, x: PlayerView)
    requires Ranked(s)
    ensures Ranked(Insert(s, x))
    ensures multiset(Insert(s, x)) == multiset(s) + multiset{x}
  {
    if s == [] {
    } else if Ahead(x, s[0]) {
      assert forall j | 0 <= j < |s| :: !Ahead(s[j], s[0]);
    } else {
      RankedTail(s);
      InsertRanked(s[1..], x);
      var rest := Insert(s[1..], x);
      assert s == [s[0]] + s[1..];
      forall j | 0 <= j < |rest| ensures !Ahead(rest[j], s[0]) {
        assert rest[j] in multiset(rest);
        if rest[j] != x {
          assert rest[j] in s[1..];
        }
      }
    }
  }

  /** The sorted list is ranked and holds exactly the entries it was given. */
  lemma {:induction false} SortRanked(s: seq<PlayerView>)
    ensures Ranked(Sort(s))
    ensures multiset(Sort(s)) == multiset(s)
  {
    if s != [] {
      var init, last := s[..|s| - 1], s[|s| - 1];
      SortRanked(init);
      InsertRanked(Sort(init), last);
      assert s == init + [last];
    }
  }

  /** The entries of `s` that tie with `k`, in their order in `s`. */
  function TiedWith(s: seq<PlayerView>, k: PlayerView): seq<PlayerView> {
    if s == [] then [] else (if Tied(s[0], k) then [s[0]] else []) + TiedWith(s[1..], k)
  }

  lemma {:induction false} TiedWithAppend(a: seq<PlayerView>, b: seq<PlayerView>, k: PlayerView)
    ensures TiedWith(a + b, k) == TiedWith(a, k) + TiedWith(b, k)
  {
    if a == [] {
      assert a + b == b;
    } else {
      assert (a + b)[0] == a[0] && (a + b)[1..] == a[1..] + b;
      TiedWithAppend(a[1..], b, k);
    }
  }

  lemma {:induction false} NoneTied(s: seq<PlayerView>, k: PlayerView)
    requires forall j | 0 <= j < |s| :: !Tied(s[j], k)
    ensures TiedWith(s, k) == []
  {
    if s != [] {
      NoneTied(s[1..], k);
    }
  }

  lemma RankedTail(s: seq<PlayerView>)
    requires Ranked(s) && s != []
    ensures Ranked(s[1..])
  {
    var t := s[1..];
    forall i, j | 0 <= i < j < |t| ensures !Ahead(t[j], t[i]) {
      assert t[i] == s[i + 1] && t[j] == s[j + 1];
    }
  }

  lemma TiedWithOne(x: PlayerView, k: PlayerView)
    ensures TiedWith([x], k) == if Tied(x, k) then [x] else []
  {
    var h: seq<PlayerView> := if Tied(x, k) then [x] else [];
    assert [x][1..] == [];
    assert TiedWith([x], k) == h + TiedWith([], k);
    assert h + [] == h;
  }

  /** An entry put in front of every entry it ranks strictly before ties with none of them. */
  lemma FrontKeepsTies(s: seq<PlayerView>, x: PlayerView, k: PlayerView)
    requires Ranked(s) && s != [] && Ahead(x, s[0])
    ensures TiedWith([x] + s, k) == TiedWith(s, k) + TiedWith([x], k)
  {
    TiedWithAppend([x], s, k);
    TiedWithOne(x, k);
    if Tied(x, k) {
      forall j | 0 <= j < |s| ensures !Tied(s[j], k) {
        assert !Ahead(s[j], s[0]);
      }
      NoneTied(s, k);
      assert [x] + [] == [] + [x];
    } else {
      assert [] + TiedWith(s, k) == TiedWith(s, k) + [];
    }
  }

  /** Insertion puts `x` after every entry it ties with, so the order among ties is kept. */
  lemma {:induction false} InsertKeepsTies(s: seq<PlayerView>, x: PlayerView, k: PlayerView)
    requires Ranked(s)
    ensures TiedWith(Insert(s, x), k) == TiedWith(s, k) + TiedWith([x], k)
  {
    if s == [] {
      assert Insert(s, x) == [x];
      assert TiedWith(s, k) + TiedWith([x], k) == TiedWith([x], k);
    } else if Ahead(x, s[0]) {
      assert Insert(s, x) == [x] + s;
      FrontKeepsTies(s, x, k);
    } else {
      var tail := s[1..];
      RankedTail(s);
      var rest := Insert(tail, x);
      InsertKeepsTies(tail, x, k);
      assert Insert(s, x) == [s[0]] + rest;
      TiedWithAppend([s[0]], rest, k);
      TiedWithAppend([s[0]], tail, k);
      assert [s[0]] + tail == s;
      var head := TiedWith([s[0]], k);
      assert TiedWith(Insert(s, x), k) == head + (TiedWith(tail, k) + TiedWith([x], k));
      assert TiedWith(s, k) == head + TiedWith(tail, k);
    }
  }

  /** The sort is stable: entries that tie keep their membership order. */
  lemma {:induction false} SortKeepsTies(s: seq<PlayerView>, k: PlayerView)
    ensures TiedWith(Sort(s), k) == TiedWith(s, k)
  {
    if s != [] {
      var init, last := s[..|s| - 1], s[|s| - 1];
      SortKeepsTies(init, k);
      SortRanked(init);
      InsertKeepsTies(Sort(init), last, k);
      assert s == init + [last];
      TiedWithAppend(init, [last], k);
    }
  }

  /**
   * The leaderboard sent with `leaderboardUpdate`: a reordering of the
   * player views, best bulls first, fewer guesses first on equal bulls,
   * and membership order among exact ties.
   */
  lemma LeaderboardOrder(views: seq<PlayerView>)
    ensures multiset(Sort(views)) == multiset(views)
    ensures forall i, j | 0 <= i < j < |Sort(views)| ::
      Sort(views)[i].bestBulls > Sort(views)[j].bestBulls
      || (Sort(views)[i].bestBulls == Sort(views)[j].bestBulls && Sort(views)[i].guessCount <= Sort(views)[j].guessCount)
    ensures forall k :: TiedWith(Sort(views), k) == TiedWith(views, k)
  {
    SortRanked(views);
    forall k ensures TiedWith(Sort(views), k) == TiedWith(views, k) {
      SortKeepsTies(views, k);
    }
  }
}
