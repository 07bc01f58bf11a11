/**
 * The leaderboard store (src/services/leaderboardService.ts): the top-ten
 * list, the listener registry, and the storage slot the list is written to
 * after every change.
 */
module Leaderboard {
  import opened Wrappers
  import opened Ranking

  /** A registered callback, known here only by an id; the same id may be registered twice. */
  type ListenerId = nat

  /** What the service does that its caller can observe besides its fields. */
  datatype Event =
    | Saved(snapshot: seq<Entry>)                             // the slot is written
    | Notified(listener: ListenerId, snapshot: seq<Entry>)    // a listener is called

  /** One call per listener, in registration order, each with the same snapshot. */
  function Broadcast(ls: seq<ListenerId>, snapshot: seq<Entry>): (r: seq<Event>)
    ensures |r| == |ls|
  {
    if ls == [] then []
    else Broadcast(ls[..|ls| - 1], snapshot) + [Notified(ls[|ls| - 1], snapshot)]
  }

  /** The list the service starts from: the stored one, or empty when the slot is missing or unreadable. */
  function Load(slot: Option<seq<Entry>>): (r: seq<Entry>)
    ensures slot == Some(r) || (slot == None && r == [])
  {
    match slot
    case Some(s) => s
    case None => []
  }

  /** `Array.prototype.indexOf`: the first position of `l`, or -1. */
  function IndexOf(ls: seq<ListenerId>, l: ListenerId): (r: int)
    ensures -1 <= r < |ls|
    ensures r == -1 <==> l !in ls
    ensures 0 <= r ==> ls[r] == l && l !in ls[..r]
  {
    if ls == [] then -1
    else if ls[0] == l then 0
    else
      var k := IndexOf(ls[1..], l);
      if k == -1 then -1 else k + 1
  }

  /** What the unsubscribe closure does to the registry: `splice` out the first `l`, if any. */
  function RemoveFirst(ls: seq<ListenerId>, l: ListenerId): (r: seq<ListenerId>)
    ensures l in ls ==> |r| == |ls| - 1
    ensures l !in ls ==> r == ls
  {
    var i := IndexOf(ls, l);
    if i > -1 then ls[..i] + ls[i + 1..] else ls
  }

  /** The registry without any occurrence of `l`. */
  function Without(ls: seq<ListenerId>, l: ListenerId): seq<ListenerId> {
    if ls == [] then []
    else (if ls[0] == l then [] else [ls[0]]) + Without(ls[1..], l)
  }

  class LeaderboardService {
    var scores: seq<Entry>
    var listeners: seq<ListenerId>
    const maxEntries: nat := MaxEntries
    /** The `flappy-bird-leaderboard` key of local storage; None when absent or unreadable. */
    var slot: Option<seq<Entry>>
    /** Every write to the slot and every listener call, in order. */
    ghost var log: seq<Event>

    /** The private constructor: loads the list from the slot. */
    constructor (stored: Option<seq<Entry>>)
      ensures slot == stored
      ensures scores == Load(stored) && listeners == [] && log == []
    {
      scores := [];
      listeners := [];
      slot := stored;
      log := [];
      new;
      LoadScores();
    }

    /**
     * `loadScores`: a readable slot replaces the list. The source leaves the
     * list alone for a missing slot and empties it for an unreadable one; it
     * runs only from the constructor, on the still empty list, where both give
     * the empty list that `None` stands for.
     */
    method LoadScores()
      requires scores == []
      modifies this`scores
      ensures scores == Load(slot)
    {
      match slot
      case Some(s) =>
        scores := s;
      case None =>
        scores := [];
    }

    /** `saveScores`: writes the current list to the slot. */
    method SaveScores()
      modifies this`slot, this`log
      ensures slot == Some(scores)
      ensures log == old(log) + [Saved(scores)]
    {
      slot := Some(scores);
      log := log + [Saved(scores)];
    }

    /** `notifyListeners`: calls every listener, in order, with a copy of the list. */
    method NotifyListeners()
      modifies this`log
      ensures log == old(log) + Broadcast(listeners, scores)
    {
      var i := 0;
      while i < |listeners|
        invariant 0 <= i <= |listeners|
        invariant log == old(log) + Broadcast(listeners[..i], scores)
      {
        assert listeners[..i + 1][..i] == listeners[..i];
        log := log + [Notified(listeners[i], scores)];
        i := i + 1;
      }
      assert listeners[..i] == listeners;
    }

    /**
     * `addScore`: pushes the entry, sorts stably by descending score, keeps
     * the first `maxEntries`, then saves and notifies. Any name and any score
     * are accepted.
     */
    method AddScore(playerName: string, score: int, id: string, timestamp: int)
      modifies this`scores, this`slot, this`log
      ensures scores == Added(old(scores), Entry(id, playerName, score, timestamp))
      ensures SortedDesc(scores)
      ensures slot == Some(scores)
      ensures log == old(log) + [Saved(scores)] + Broadcast(listeners, scores)
    {
      var entry := Entry(id, playerName, score, timestamp);
      ghost var before := scores;
      scores := scores + [entry];
      scores := SortDesc(scores);
      scores := Take(scores, maxEntries);
      AddedSortedAndBounded(before, entry);
      SaveScores();
      NotifyListeners();
    }

    /** `clearScores`: empties the list, then saves and notifies. */
    method ClearScores()
      modifies this`scores, this`slot, this`log
      ensures scores == [] && slot == Some([])
      ensures log == old(log) + [Saved([])] + Broadcast(listeners, [])
    {
      scores := [];
      SaveScores();
      NotifyListeners();
    }

    /** `getScores`: a copy of the list; nothing changes. */
    method GetScores() returns (r: seq<Entry>)
      ensures r == scores
    {
      r := scores;
    }

    /** `subscribe`: registers the listener and calls it at once with the current list. */
    method Subscribe(l: ListenerId)
      modifies this`listeners, this`log
      ensures listeners == old(listeners) + [l]
      ensures log == old(log) + [Notified(l, scores)]
    {
      listeners := listeners + [l];
      log := log + [Notified(l, scores)];
    }

    /** The closure `subscribe` returns: removes the first registration of `l`, if there is one. */
    method Unsubscribe(l: ListenerId)
      modifies this`listeners
      ensures listeners == RemoveFirst(old(listeners), l)
    {
      var index := IndexOf(listeners, l);
      if index > -1 {
        listeners := listeners[..index] + listeners[index + 1..];
      }
    }
  }

  // ---------------------------------------------------------------------------
  // Notification

  /** Each registered listener receives exactly one call, in registration order. */
  lemma {:induction false} BroadcastAt(ls: seq<ListenerId>, snapshot: seq<Entry>, i: nat)
    requires i < |ls|
    ensures |Broadcast(ls, snapshot)| == |ls|
    ensures Broadcast(ls, snapshot)[i] == Notified(ls[i], snapshot)
  {
    var init := ls[..|ls| - 1];
    if i < |ls| - 1 {
      BroadcastAt(init, snapshot, i);
    } else if |ls| > 1 {
      BroadcastAt(init, snapshot, 0);
    }
  }

  /** Only registered listeners are called, and only with the snapshot. */
  lemma {:induction false} BroadcastOnly(ls: seq<ListenerId>, snapshot: seq<Entry>, ev: Event)
    requires ev in Broadcast(ls, snapshot)
    ensures ev.Notified? && ev.listener in ls && ev.snapshot == snapshot
  {
    var init := ls[..|ls| - 1];
    if ev != Notified(ls[|ls| - 1], snapshot) {
      BroadcastOnly(init, snapshot, ev);
      assert ev.listener in ls by {
        var j :| 0 <= j < |init| && init[j] == ev.listener;
        assert ls[j] == ev.listener;
      }
    }
  }

  // ---------------------------------------------------------------------------
  // Unsubscribe

  lemma {:induction false} WithoutAppend(a: seq<ListenerId>, b: seq<ListenerId>, l: ListenerId)
    ensures Without(a + b, l) == Without(a, l) + Without(b, l)
  {
    if a == [] {
      assert a + b == b;
    } else {
      assert (a + b)[0] == a[0];
      assert (a + b)[1..] == a[1..] + b;
      WithoutAppend(a[1..], b, l);
    }
  }

  lemma {:induction false} WithoutAbsent(ls: seq<ListenerId>, l: ListenerId)
    requires l !in ls
    ensures Without(ls, l) == ls
  {
    if ls != [] {
      WithoutAbsent(ls[1..], l);
      assert ls == [ls[0]] + ls[1..];
    }
  }

  /**
   * Unsubscribing removes exactly one registration of `l` when there is one
   * and changes nothing otherwise; the other listeners keep their order.
   */
  lemma RemoveFirstSpec(ls: seq<ListenerId>, l: ListenerId)
    ensures l !in ls ==> RemoveFirst(ls, l) == ls
    ensures l in ls ==> |RemoveFirst(ls, l)| == |ls| - 1
    ensures multiset(RemoveFirst(ls, l)) == multiset(ls) - multiset{l}
    ensures Without(RemoveFirst(ls, l), l) == Without(ls, l)
    ensures l in ls ==>
      exists i :: 0 <= i < |ls| && ls[i] == l && l !in ls[..i] && RemoveFirst(ls, l) == ls[..i] + ls[i + 1..]
  {
    if l in ls {
      var i := IndexOf(ls, l);
      var pre, post := ls[..i], ls[i + 1..];
      RemoveFirstSplice(ls, l);
      SpliceMultiset(pre, post, l);
      WithoutSplice(pre, post, l);
    } else {
      assert multiset(ls)[l] == 0;
      WithoutAbsent(ls, l);
    }
  }

  /** Where `l` is registered, the registry is split around its first occurrence. */
  lemma RemoveFirstSplice(ls: seq<ListenerId>, l: ListenerId)
    requires l in ls
    ensures 0 <= IndexOf(ls, l) < |ls|
    ensures ls == ls[..IndexOf(ls, l)] + [l] + ls[IndexOf(ls, l) + 1..]
    ensures RemoveFirst(ls, l) == ls[..IndexOf(ls, l)] + ls[IndexOf(ls, l) + 1..]
  {
    var i := IndexOf(ls, l);
    assert ls == ls[..i] + [ls[i]] + ls[i + 1..];
  }

  lemma SpliceMultiset(pre: seq<ListenerId>, post: seq<ListenerId>, l: ListenerId)
    ensures multiset(pre + post) == multiset(pre + [l] + post) - multiset{l}
  {
    assert multiset(pre + [l] + post) == multiset(pre) + multiset{l} + multiset(post);
    assert multiset(pre + post) == multiset(pre) + multiset(post);
  }

  lemma WithoutSplice(pre: seq<ListenerId>, post: seq<ListenerId>, l: ListenerId)
    ensures Without(pre + [l] + post, l) == Without(pre + post, l)
  {
    WithoutAppend(pre + [l], post, l);
    WithoutAppend(pre, [l], l);
    WithoutAppend(pre, post, l);
    assert Without([l], l) == [] + Without([], l);
    assert Without(pre + [l], l) == Without(pre, l);
  }

  /** With `l` registered once, a second unsubscribe changes nothing. */
  lemma UnsubscribeTwice(ls: seq<ListenerId>, l: ListenerId)
    requires multiset(ls)[l] <= 1
    ensures RemoveFirst(RemoveFirst(ls, l), l) == RemoveFirst(ls, l)
  {
    RemoveFirstSpec(ls, l);
    assert multiset(RemoveFirst(ls, l))[l] == 0;
    assert l !in RemoveFirst(ls, l);
  }

  /** After unsubscribing a listener registered once, a notification no longer reaches it. */
  lemma UnsubscribedNotNotified(ls: seq<ListenerId>, l: ListenerId, snapshot: seq<Entry>)
    requires multiset(ls)[l] <= 1
    ensures forall ev :: ev in Broadcast(RemoveFirst(ls, l), snapshot) ==> ev.Notified? && ev.listener != l
  {
    var rest: seq<ListenerId> := RemoveFirst(ls, l);
    RemoveFirstSpec(ls, l);
    assert l !in rest by {
      assert multiset(rest)[l] == 0;
    }
    forall ev | ev in Broadcast(rest, snapshot) ensures ev.Notified? && ev.listener != l {
      BroadcastOnly(rest, snapshot, ev);
    }
  }

  /** Unsubscribing one listener does not stop notifications to any other. */
  lemma OthersStillNotified(ls: seq<ListenerId>, l: ListenerId, snapshot: seq<Entry>)
    ensures forall m :: m in ls && m != l ==> Notified(m, snapshot) in Broadcast(RemoveFirst(ls, l), snapshot)
  {
    var rest: seq<ListenerId> := RemoveFirst(ls, l);
    RemoveFirstSpec(ls, l);
    forall m | m in ls && m != l ensures Notified(m, snapshot) in Broadcast(rest, snapshot) {
      assert multiset(rest)[m] == multiset(ls)[m] > 0;
      var j := IndexOf(rest, m);
      BroadcastAt(rest, snapshot, j);
    }
  }
}
