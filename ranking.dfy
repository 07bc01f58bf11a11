/**
 * The ordering behind the leaderboard (src/services/leaderboardService.ts):
 * entries are kept in non-increasing score order by a STABLE sort, so that
 * entries with equal scores keep their insertion order, and only the first
 * MaxEntries of them are kept.
 */
module Ranking {

  /** A LeaderboardEntry. The id and timestamp are opaque values chosen by the caller. */
  datatype Entry = Entry(id: string, playerName: string, score: int, timestamp: int)

  /** The service's `maxEntries`. */
  const MaxEntries: nat := 10

  /** Non-increasing by score, the order the comparator `b.score - a.score` asks for. */
  ghost predicate SortedDesc(s: seq<Entry>) {
    forall i, j :: 0 <= i < j < |s| ==> s[i].score >= s[j].score
  }

  /** The entries of `s` whose score is `k`, in their order in `s`. */
  function WithScore(s: seq<Entry>, k: int): seq<Entry> {
    if s == [] then [] else Single(s[0], k) + WithScore(s[1..], k)
  }

  /** `[x]` when `x` scores `k`, otherwise nothing. */
  function Single(x: Entry, k: int): seq<Entry> {
    if x.score == k then [x] else []
  }

  /** The number of entries of `s` scoring at least `k`. */
  function CountAtLeast(s: seq<Entry>, k: int): nat {
    if s == [] then 0
    else (if s[0].score >= k then 1 else 0) + CountAtLeast(s[1..], k)
  }

  /**
   * Places `e` after every entry that scores at least as much as it does:
   * where a stable sort puts an element that comes after all of `s`.
   */
  function Insert(s: seq<Entry>, e: Entry): (r: seq<Entry>)
    ensures multiset(r) == multiset(s) + multiset{e}
  {
    if s == [] then [e]
    else if s[0].score >= e.score then
      assert s == [s[0]] + s[1..];
      [s[0]] + Insert(s[1..], e)
    else [e] + s
  }

  /**
   * A stable sort into non-increasing score order (Array.prototype.sort with
   * the comparator `(a, b) => b.score - a.score`; ECMA-262 requires that sort
   * to be stable since ES2019). Defined as insertion sort, one element at a
   * time from the front.
   */
  function SortDesc(s: seq<Entry>): (r: seq<Entry>)
    ensures multiset(r) == multiset(s)
  {
    if s == [] then []
    else
      assert s == s[..|s| - 1] + [s[|s| - 1]];
      Insert(SortDesc(s[..|s| - 1]), s[|s| - 1])
  }

  /** `slice(0, n)`: the first `n` entries, or all of them when there are fewer. */
  function Take(s: seq<Entry>, n: nat): (r: seq<Entry>)
    ensures |r| == if |s| <= n then |s| else n
    ensures r == s[..|r|]
  {
    if |s| <= n then s else s[..n]
  }

  /** The list `addScore` leaves behind: push `e`, sort, keep the first MaxEntries. */
  function Added(s: seq<Entry>, e: Entry): (r: seq<Entry>)
    ensures |r| <= MaxEntries
    ensures r <= SortDesc(s + [e])  // a prefix of the sorted list
  {
    Take(SortDesc(s + [e]), MaxEntries)
  }

  // ---------------------------------------------------------------------------
  // Subsequences by score

  lemma {:induction false} WithScoreAppend(a: seq<Entry>, b: seq<Entry>, k: int)
    ensures WithScore(a + b, k) == WithScore(a, k) + WithScore(b, k)
  {
    if a != [] {
      assert (a + b)[0] == a[0];
      assert (a + b)[1..] == a[1..] + b;
      WithScoreAppend(a[1..], b, k);
      calc {
        WithScore(a + b, k);
        Single(a[0], k) + WithScore(a[1..] + b, k);
        Single(a[0], k) + (WithScore(a[1..], k) + WithScore(b, k));
        (Single(a[0], k) + WithScore(a[1..], k)) + WithScore(b, k);
      }
    } else {
      assert a + b == b;
    }
  }

  lemma {:induction false} WithScoreMembers(s: seq<Entry>, k: int)
    ensures forall x :: x in WithScore(s, k) ==> x in s && x.score == k
  {
    if s != [] {
      WithScoreMembers(s[1..], k);
    }
  }

  /** The first entry of a list is the first of those with its score. */
  lemma WithScoreHead(s: seq<Entry>)
    requires s != []
    ensures WithScore(s, s[0].score) != [] && WithScore(s, s[0].score)[0] == s[0]
  {
  }

  lemma SeqAssoc<T>(a: seq<T>, b: seq<T>, c: seq<T>)
    ensures a + (b + c) == (a + b) + c
  {
  }

  /** Unfolds WithScore over a list built by prepending one entry. */
  lemma WithScoreCons(x: Entry, s: seq<Entry>, k: int)
    ensures WithScore([x] + s, k) == Single(x, k) + WithScore(s, k)
  {
    assert ([x] + s)[1..] == s;
  }

  lemma {:induction false} WithScoreNone(s: seq<Entry>, k: int)
    requires forall i :: 0 <= i < |s| ==> s[i].score < k
    ensures WithScore(s, k) == []
  {
    if s != [] {
      WithScoreNone(s[1..], k);
    }
  }

  // ---------------------------------------------------------------------------
  // Insert

  lemma {:induction false} InsertSorted(s: seq<Entry>, e: Entry)
    requires SortedDesc(s)
    ensures SortedDesc(Insert(s, e))
  {
    if s != [] && s[0].score >= e.score {
      var tail := Insert(s[1..], e);
      assert SortedDesc(s[1..]);
      InsertSorted(s[1..], e);
      forall x | x in tail ensures x.score <= s[0].score {
        assert x in multiset(s[1..]) + multiset{e};
        if x != e {
          var j :| 0 <= j < |s[1..]| && s[1..][j] == x;
          assert x == s[j + 1];
        }
      }
      ConsSorted(s[0], tail);
    } else if s != [] {
      ConsSorted(e, s);
    }
  }

  /** Putting an entry in front of a sorted list that it outscores keeps it sorted. */
  lemma ConsSorted(x: Entry, t: seq<Entry>)
    requires SortedDesc(t)
    requires forall y :: y in t ==> y.score <= x.score
    ensures SortedDesc([x] + t)
  {
    var r := [x] + t;
    forall i, j | 0 <= i < j < |r| ensures r[i].score >= r[j].score {
      if i > 0 {
        assert r[i] == t[i - 1] && r[j] == t[j - 1];
      } else {
        assert r[j] == t[j - 1];
        assert t[j - 1] in t;
      }
    }
  }

  /** Among entries of score `k`, the inserted one comes last. */
  lemma {:induction false} InsertStable(s: seq<Entry>, e: Entry, k: int)
    requires SortedDesc(s)
    ensures WithScore(Insert(s, e), k) == WithScore(s, k) + Single(e, k)
  {
    if s == [] {
      WithScoreCons(e, [], k);
    } else if s[0].score >= e.score {
      assert SortedDesc(s[1..]);
      InsertStable(s[1..], e, k);
      InsertStableStep(s, e, k);
    } else {
      assert forall i :: 0 <= i < |s| ==> s[i].score < e.score;
      InsertStableFront(s, e, k);
    }
  }

  /** The step of InsertStable where `e` goes behind the head of `s`. */
  lemma InsertStableStep(s: seq<Entry>, e: Entry, k: int)
    requires s != [] && s[0].score >= e.score
    requires WithScore(Insert(s[1..], e), k) == WithScore(s[1..], k) + Single(e, k)
    ensures WithScore(Insert(s, e), k) == WithScore(s, k) + Single(e, k)
  {
    InsertBehind(s, e);
    HeadTail(s);
    WithScoreConsStep(s[0], Insert(s[1..], e), s[1..], e, k);
  }

  lemma InsertBehind(s: seq<Entry>, e: Entry)
    requires s != [] && s[0].score >= e.score
    ensures Insert(s, e) == [s[0]] + Insert(s[1..], e)
  {
  }

  lemma HeadTail<T>(s: seq<T>)
    requires s != []
    ensures [s[0]] + s[1..] == s
  {
  }

  lemma WithScoreConsStep(x: Entry, t: seq<Entry>, u: seq<Entry>, y: Entry, k: int)
    requires WithScore(t, k) == WithScore(u, k) + Single(y, k)
    ensures WithScore([x] + t, k) == WithScore([x] + u, k) + Single(y, k)
  {
    WithScoreCons(x, t, k);
    WithScoreCons(x, u, k);
    SeqAssoc(Single(x, k), WithScore(u, k), Single(y, k));
  }

  /** The case of InsertStable where `e` outscores all of `s` and goes first. */
  lemma InsertStableFront(s: seq<Entry>, e: Entry, k: int)
    requires s != [] && forall i :: 0 <= i < |s| ==> s[i].score < e.score
    ensures WithScore(Insert(s, e), k) == WithScore(s, k) + Single(e, k)
  {
    assert Insert(s, e) == [e] + s;
    WithScoreCons(e, s, k);
    if e.score == k {
      WithScoreNone(s, k);
      assert WithScore(s, k) + Single(e, k) == [e];
    } else {
      assert Single(e, k) == [];
      assert WithScore(s, k) + Single(e, k) == WithScore(s, k);
    }
  }

  /** On a sorted list, the entry goes right after every entry scoring at least as much. */
  lemma {:induction false} InsertPosition(s: seq<Entry>, e: Entry)
    requires SortedDesc(s)
    ensures CountAtLeast(s, e.score) <= |s|
    ensures Insert(s, e) == s[..CountAtLeast(s, e.score)] + [e] + s[CountAtLeast(s, e.score)..]
  {
    if s == [] {
    } else if s[0].score >= e.score {
      InsertPosition(s[1..], e);
      var p := CountAtLeast(s[1..], e.score);
      assert s[..p + 1] == [s[0]] + s[1..][..p];
      assert s[p + 1..] == s[1..][p..];
    } else {
      CountAtLeastNone(s, e.score);
    }
  }

  lemma {:induction false} CountAtLeastNone(s: seq<Entry>, k: int)
    requires forall i :: 0 <= i < |s| ==> s[i].score < k
    ensures CountAtLeast(s, k) == 0
  {
    if s != [] {
      CountAtLeastNone(s[1..], k);
    }
  }

  // ---------------------------------------------------------------------------
  // SortDesc is a stable sort

  lemma {:induction false} SortDescSorted(s: seq<Entry>)
    ensures SortedDesc(SortDesc(s))
  {
    if s != [] {
      SortDescSorted(s[..|s| - 1]);
      InsertSorted(SortDesc(s[..|s| - 1]), s[|s| - 1]);
    }
  }

  /** Stability: the entries of any one score keep their relative order. */
  lemma {:induction false} SortDescStable(s: seq<Entry>, k: int)
    ensures WithScore(SortDesc(s), k) == WithScore(s, k)
  {
    if s != [] {
      var init, last := s[..|s| - 1], s[|s| - 1];
      calc {
        WithScore(SortDesc(s), k);
        WithScore(Insert(SortDesc(init), last), k);
        { SortDescSorted(init); InsertStable(SortDesc(init), last, k); }
        WithScore(SortDesc(init), k) + Single(last, k);
        { SortDescStable(init, k); }
        WithScore(init, k) + Single(last, k);
        { WithScoreCons(last, [], k); assert [last] + [] == [last]; }
        WithScore(init, k) + WithScore([last], k);
        { WithScoreAppend(init, [last], k); assert init + [last] == s; }
        WithScore(s, k);
      }
    }
  }

  /** Two sorted lists that agree score by score are the same list. */
  lemma {:induction false} SortedUnique(a: seq<Entry>, b: seq<Entry>)
    requires SortedDesc(a) && SortedDesc(b)
    requires forall k :: WithScore(a, k) == WithScore(b, k)
    ensures a == b
    decreases |a|
  {
    if a == [] && b == [] {
    } else if a == [] {
      WithScoreHead(b);
      assert false;
    } else if b == [] {
      WithScoreHead(a);
      assert false;
    } else {
      var m, n := a[0].score, b[0].score;
      WithScoreMembers(a, n);
      WithScoreMembers(b, m);
      assert WithScore(a, m)[0] == a[0];
      assert a[0] in WithScore(b, m);
      assert WithScore(b, n)[0] == b[0];
      assert b[0] in WithScore(a, n);
      assert m == n;
      assert a[0] == WithScore(a, m)[0] == WithScore(b, m)[0] == b[0];
      forall k ensures WithScore(a[1..], k) == WithScore(b[1..], k) {
        var h := Single(a[0], k);
        assert WithScore(a, k) == h + WithScore(a[1..], k);
        assert WithScore(b, k) == h + WithScore(b[1..], k);
        assert WithScore(a[1..], k) == WithScore(a, k)[|h|..];
        assert WithScore(b[1..], k) == WithScore(b, k)[|h|..];
      }
      SortedUnique(a[1..], b[1..]);
      assert a == [a[0]] + a[1..];
      assert b == [b[0]] + b[1..];
    }
  }

  /**
   * SortDesc is THE stable descending sort: any list that is sorted and keeps
   * the entries of each score in their input order is SortDesc of the input.
   */
  lemma StableSortIsSortDesc(s: seq<Entry>, r: seq<Entry>)
    requires SortedDesc(r)
    requires forall k :: WithScore(r, k) == WithScore(s, k)
    ensures r == SortDesc(s)
  {
    SortDescSorted(s);
    forall k ensures WithScore(r, k) == WithScore(SortDesc(s), k) {
      SortDescStable(s, k);
    }
    SortedUnique(r, SortDesc(s));
  }

  /** Sorting an already sorted list changes nothing. */
  lemma SortDescOfSorted(s: seq<Entry>)
    requires SortedDesc(s)
    ensures SortDesc(s) == s
  {
    StableSortIsSortDesc(s, s);
  }

  /** Pushing one entry onto a list and re-sorting is inserting it into the sorted list. */
  lemma SortDescPush(s: seq<Entry>, e: Entry)
    ensures SortDesc(s + [e]) == Insert(SortDesc(s), e)
  {
    assert (s + [e])[..|s|] == s;
  }

  // ---------------------------------------------------------------------------
  // What addScore leaves behind

  /** Sorted, and one longer than before up to MaxEntries, whatever the old list was. */
  lemma AddedSortedAndBounded(s: seq<Entry>, e: Entry)
    ensures SortedDesc(Added(s, e))
    ensures |Added(s, e)| == if |s| + 1 <= MaxEntries then |s| + 1 else MaxEntries
  {
    SortDescSorted(s + [e]);
    assert |SortDesc(s + [e])| == |multiset(SortDesc(s + [e]))| == |s + [e]|;
  }

  /**
   * Every kept entry is an old one or the new one, and every entry that the
   * truncation drops scores no higher than any entry that is kept.
   */
  lemma AddedKeepsTheBest(s: seq<Entry>, e: Entry)
    ensures multiset(Added(s, e)) <= multiset(s) + multiset{e}
    ensures forall x :: x in Added(s, e) ==> x in s || x == e
    ensures forall i, j :: 0 <= i < |Added(s, e)| <= j < |SortDesc(s + [e])| ==>
              SortDesc(s + [e])[j].score <= Added(s, e)[i].score
  {
    var full := SortDesc(s + [e]);
    SortDescSorted(s + [e]);
    var r := Added(s, e);
    assert full == r + full[|r|..];
    assert multiset(full) == multiset(r) + multiset(full[|r|..]);
    assert multiset(s + [e]) == multiset(s) + multiset{e};
    forall x | x in r ensures x in s || x == e {
      assert x in multiset(r);
      assert x in multiset(s) + multiset{e};
      assert x in multiset(s) || x == e;
    }
  }

  /**
   * With room left, the candidate is always kept: the service itself checks
   * neither the name nor the score.
   */
  lemma AddedKeepsEntryWhenRoom(s: seq<Entry>, e: Entry)
    requires |s| < MaxEntries
    ensures e in Added(s, e)
  {
    AddedSortedAndBounded(s, e);
    var full := SortDesc(s + [e]);
    assert Added(s, e) == full;
    assert e in multiset(s + [e]);
  }

  /** Among the entries scoring the same as the new one, the new one is last. */
  lemma AddedAfterTies(s: seq<Entry>, e: Entry)
    ensures WithScore(SortDesc(s + [e]), e.score) == WithScore(s, e.score) + [e]
  {
    SortDescStable(s + [e], e.score);
    WithScoreAppend(s, [e], e.score);
  }

  /**
   * On a sorted list, the new entry lands right after every entry scoring at
   * least as much, so behind every existing entry with an equal score.
   */
  lemma AddedPosition(s: seq<Entry>, e: Entry)
    requires SortedDesc(s)
    ensures CountAtLeast(s, e.score) <= |s|
    ensures SortDesc(s + [e]) == s[..CountAtLeast(s, e.score)] + [e] + s[CountAtLeast(s, e.score)..]
  {
    SortDescPush(s, e);
    SortDescOfSorted(s);
    InsertPosition(s, e);
  }

  /** A full, sorted board is unchanged by a score no higher than its last one. */
  lemma AddedToFullBoard(s: seq<Entry>, e: Entry)
    requires SortedDesc(s) && |s| == MaxEntries
    requires e.score <= s[MaxEntries - 1].score
    ensures Added(s, e) == s
  {
    AddedPosition(s, e);
    CountAllAtLeast(s, e.score);
    assert SortDesc(s + [e]) == s + [e];
  }

  lemma {:induction false} CountAllAtLeast(s: seq<Entry>, k: int)
    requires forall i :: 0 <= i < |s| ==> s[i].score >= k
    ensures CountAtLeast(s, k) == |s|
  {
    if s != [] {
      CountAllAtLeast(s[1..], k);
    }
  }

  // ---------------------------------------------------------------------------
  // Many calls of addScore

  lemma TakeCons(x: Entry, t: seq<Entry>, n: nat)
    requires n > 0
    ensures Take([x] + t, n) == [x] + Take(t, n - 1)
  {
  }

  lemma TakeTake(s: seq<Entry>, n: nat, m: nat)
    requires m <= n
    ensures Take(Take(s, n), m) == Take(s, m)
  {
  }

  /** The first `n` after an insertion depend only on the first `n` before it. */
  lemma {:induction false} InsertTake(s: seq<Entry>, e: Entry, n: nat)
    ensures Take(Insert(Take(s, n), e), n) == Take(Insert(s, e), n)
  {
    if n == 0 || s == [] {
    } else if s[0].score >= e.score {
      InsertTake(s[1..], e, n - 1);
      InsertTakeBehind(s, e, n);
    } else {
      InsertTakeFront(s, e, n);
    }
  }

  /** The step of `InsertTake` where `e` goes in front of all of `s`. */
  lemma InsertTakeFront(s: seq<Entry>, e: Entry, n: nat)
    requires n > 0 && s != [] && s[0].score < e.score
    ensures Take(Insert(Take(s, n), e), n) == Take(Insert(s, e), n)
  {
    var t := Take(s, n);
    assert t[0] == s[0];
    assert Insert(t, e) == [e] + t;
    assert Insert(s, e) == [e] + s;
    TakeCons(e, t, n);
    TakeTake(s, n, n - 1);
    TakeCons(e, s, n);
  }

  /** The step of `InsertTake` where `e` goes behind the head of `s`. */
  lemma InsertTakeBehind(s: seq<Entry>, e: Entry, n: nat)
    requires n > 0 && s != [] && s[0].score >= e.score
    requires Take(Insert(Take(s[1..], n - 1), e), n - 1) == Take(Insert(s[1..], e), n - 1)
    ensures Take(Insert(Take(s, n), e), n) == Take(Insert(s, e), n)
  {
    var t := Take(s[1..], n - 1);
    HeadTail(s);
    TakeCons(s[0], s[1..], n);
    assert Take(s, n) == [s[0]] + t;
    InsertBehind([s[0]] + t, e);
    assert ([s[0]] + t)[1..] == t;
    InsertBehind(s, e);
    TakeCons(s[0], Insert(t, e), n);
    TakeCons(s[0], Insert(s[1..], e), n);
  }


  /**
   * Adding to a board that holds the first MaxEntries of the stable sort of
   * a history gives the first MaxEntries of the stable sort of the history
   * extended by the new entry: truncation loses nothing a later call needs.
   */
  lemma AddedTopOfHistory(h: seq<Entry>, e: Entry)
    ensures Added(Take(SortDesc(h), MaxEntries), e) == Take(SortDesc(h + [e]), MaxEntries)
  {
    var top := Take(SortDesc(h), MaxEntries);
    SortDescSorted(h);
    assert SortedDesc(top);
    SortDescOfSorted(top);
    SortDescPush(top, e);
    SortDescPush(h, e);
    InsertTake(SortDesc(h), e, MaxEntries);
  }

  /** The board after `addScore` was called with the entries of `h`, in order, on an empty list. */
  function Board(h: seq<Entry>): (r: seq<Entry>)
    ensures |r| <= MaxEntries
  {
    if h == [] then [] else Added(Board(h[..|h| - 1]), h[|h| - 1])
  }

  /** After any sequence of additions the board is the first MaxEntries of the stable sort of all of them. */
  lemma {:induction false} BoardIsTopOfHistory(h: seq<Entry>)
    ensures Board(h) == Take(SortDesc(h), MaxEntries)
  {
    if h != [] {
      var init, e := h[..|h| - 1], h[|h| - 1];
      assert init + [e] == h;
      calc {
        Board(h);
        Added(Board(init), e);
        { BoardIsTopOfHistory(init); }
        Added(Take(SortDesc(init), MaxEntries), e);
        { AddedTopOfHistory(init, e); }
        Take(SortDesc(init + [e]), MaxEntries);
      }
    }
  }

  /**
   * The board holds the highest-scoring entries ever added, sorted: at most
   * MaxEntries of them, all from the history, and every added entry left off
   * scores no higher than every entry on it.
   */
  lemma BoardKeepsTheBest(h: seq<Entry>)
    ensures SortedDesc(Board(h))
    ensures |Board(h)| == if |h| <= MaxEntries then |h| else MaxEntries
    ensures multiset(Board(h)) <= multiset(h)
    ensures forall i, j :: 0 <= i < |Board(h)| <= j < |SortDesc(h)| ==>
              SortDesc(h)[j].score <= Board(h)[i].score
  {
    BoardIsTopOfHistory(h);
    var full := SortDesc(h);
    assert |full| == |h| by {
      assert |multiset(full)| == |multiset(h)|;
    }
    SortDescSorted(h);
    PrefixOfSorted(full, |Board(h)|);
  }

  lemma PrefixOfSorted(s: seq<Entry>, k: nat)
    requires SortedDesc(s) && k <= |s|
    ensures SortedDesc(s[..k])
    ensures multiset(s[..k]) <= multiset(s)
    ensures forall i, j :: 0 <= i < k <= j < |s| ==> s[j].score <= s[..k][i].score
  {
    assert s == s[..k] + s[k..];
    assert multiset(s) == multiset(s[..k]) + multiset(s[k..]);
  }

}
