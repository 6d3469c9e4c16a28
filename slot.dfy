/**
 * Slot: one position of the ring. It keeps, per round, the list of events due
 * when the pointer reaches this position in that round. The pure functions
 * below describe a slot's `round -> events` map; the class mutates it in place.
 */
module Slots {

  /** A call the wheel makes on an event: `startTimingCallback` or `timeoutCallback`. */
  datatype Callback<E> = StartTiming(event: E) | Timeout(event: E)

  /** The `timeoutCallback` calls made on a list of events, in list order. */
  function Timeouts<E>(es: seq<E>): (cs: seq<Callback<E>>)
    ensures |cs| == |es| && forall k :: 0 <= k < |es| ==> cs[k] == Timeout(es[k])
  {
    seq(|es|, k requires 0 <= k < |es| => Timeout(es[k]))
  }

  /** The map after `addEvent(tarRound, event)`. */
  function Add<E>(m: map<int, seq<E>>, tarRound: int, event: E): (r: map<int, seq<E>>)
    ensures r.Keys == m.Keys + {tarRound}
    ensures tarRound in m ==> r[tarRound] == m[tarRound] + [event]
    ensures tarRound !in m ==> r[tarRound] == [event]
    ensures forall k :: k in m && k != tarRound ==> r[k] == m[k]
  {
    var list := if tarRound in m then m[tarRound] else [];
    m[tarRound := list + [event]]
  }

  /** The map after `pollEvent(tarRound)`. */
  function Poll<E>(m: map<int, seq<E>>, tarRound: int): (r: map<int, seq<E>>)
    ensures r.Keys == m.Keys - {tarRound}
    ensures forall k :: k in r ==> r[k] == m[k]
  {
    m - {tarRound}
  }

  /** The callbacks `pollEvent(tarRound)` makes: none for an absent round. */
  function Fired<E>(m: map<int, seq<E>>, tarRound: int): (cs: seq<Callback<E>>)
    ensures tarRound !in m ==> cs == []
    ensures tarRound in m ==> |cs| == |m[tarRound]|
  {
    if tarRound in m then Timeouts(m[tarRound]) else []
  }

  /** A second poll of the same round changes nothing and calls nothing. */
  lemma PollIdempotent<E>(m: map<int, seq<E>>, tarRound: int)
    ensures Poll(Poll(m, tarRound), tarRound) == Poll(m, tarRound)
    ensures Fired(Poll(m, tarRound), tarRound) == []
  {
  }

  /** An added event is fired by the next poll of its round, after the ones added before it. */
  lemma AddThenFire<E>(m: map<int, seq<E>>, tarRound: int, event: E)
    ensures Fired(Add(m, tarRound, event), tarRound) == Fired(m, tarRound) + [Timeout(event)]
  {
    var before := if tarRound in m then m[tarRound] else [];
    assert Fired(m, tarRound) == Timeouts(before);
    assert Timeouts(before + [event]) == Timeouts(before) + [Timeout(event)];
  }

  /** Adding to one round and polling another commute: rounds are independent buckets. */
  lemma AddPollOtherRound<E>(m: map<int, seq<E>>, addRound: int, pollRound: int, event: E)
    requires addRound != pollRound
    ensures Poll(Add(m, addRound, event), pollRound) == Add(Poll(m, pollRound), addRound, event)
    ensures Fired(Add(m, addRound, event), pollRound) == Fired(m, pollRound)
  {
    var l := Poll(Add(m, addRound, event), pollRound);
    var r := Add(Poll(m, pollRound), addRound, event);
    assert l.Keys == r.Keys;
    assert forall k :: k in l ==> l[k] == r[k];
  }

  // ---- the events a slot holds, as a multiset ----

  lemma NonEmptyHasRound<E>(m: map<int, seq<E>>)
    requires m != map[]
    ensures exists k :: k in m
  {
    if forall k :: k !in m {
      assert false;
    }
  }

  ghost function PickRound<E>(m: map<int, seq<E>>): (k: int)
    requires m != map[]
    ensures k in m
  {
    NonEmptyHasRound(m);
    var k :| k in m; k
  }

  /** Every event held in any round of the map, with multiplicity. */
  ghost function Held<E>(m: map<int, seq<E>>): (h: multiset<E>)
    decreases |m|
  {
    if m == map[] then multiset{}
    else
      var k := PickRound(m);
      multiset(m[k]) + Held(m - {k})
  }

  /** Held does not depend on which round is taken out first. */
  lemma {:induction false} HeldWithout<E>(m: map<int, seq<E>>, k: int)
    requires k in m
    ensures Held(m) == multiset(m[k]) + Held(m - {k})
    decreases |m|
  {
    var j := PickRound(m);
    if j != k {
      var mj, mk := m - {j}, m - {k};
      assert k in mj && j in mk;
      HeldWithout(mj, k);
      HeldWithout(mk, j);
      assert mj - {k} == mk - {j};
      assert mj[k] == m[k] && mk[j] == m[j];
      Swap(multiset(m[j]), multiset(m[k]), Held(mj - {k}));
    }
  }

  /** Bags added in either order give the same bag. */
  lemma Swap<E>(a: multiset<E>, b: multiset<E>, rest: multiset<E>)
    ensures a + (b + rest) == b + (a + rest)
  {
    forall v
      ensures (a + (b + rest))[v] == (b + (a + rest))[v]
    {
    }
  }

  /** `addEvent` puts exactly one more event into the slot. */
  lemma AddHolds<E>(m: map<int, seq<E>>, tarRound: int, event: E)
    ensures Held(Add(m, tarRound, event)) == Held(m) + multiset{event}
  {
    var a := Add(m, tarRound, event);
    HeldWithout(a, tarRound);
    AddLeavesOthers(m, tarRound, event);
    if tarRound in m {
      HeldWithout(m, tarRound);
      AppendHeld(multiset(m[tarRound]), Held(m - {tarRound}), m[tarRound], event);
    } else {
      assert multiset(a[tarRound]) == multiset{event};
    }
  }

  /** Adding to one round leaves the other rounds as they were. */
  lemma AddLeavesOthers<E>(m: map<int, seq<E>>, tarRound: int, event: E)
    ensures Add(m, tarRound, event) - {tarRound} == m - {tarRound}
    ensures tarRound !in m ==> m - {tarRound} == m
  {
  }

  /** Appending one event to a round's list adds it once to everything held. */
  lemma AppendHeld<E>(l: multiset<E>, rest: multiset<E>, list: seq<E>, event: E)
    requires l == multiset(list)
    ensures multiset(list + [event]) + rest == (l + rest) + multiset{event}
  {
    assert multiset(list + [event]) == multiset(list) + multiset{event};
  }

  /** `pollEvent` removes from the slot exactly the events it calls back. */
  lemma PollHolds<E>(m: map<int, seq<E>>, tarRound: int)
    ensures tarRound in m ==> Held(Poll(m, tarRound)) + multiset(m[tarRound]) == Held(m)
    ensures tarRound !in m ==> Held(Poll(m, tarRound)) == Held(m)
  {
    if tarRound in m {
      HeldWithout(m, tarRound);
    } else {
      assert Poll(m, tarRound) == m;
    }
  }

  class Slot<E> {
    /** The ring position; written by the constructor and never read by the wheel. */
    const index: int

    /** `round -> events` due at this position in that round. */
    var eventMap: map<int, seq<E>>

    /** `Slot.buildEmptySlot(index)`. */
    constructor BuildEmpty(index: int)
      ensures this.index == index && eventMap == map[]
    {
      this.index := index;
      eventMap := map[];
    }

    /**
     * Appends the event to the list of `tarRound`, creating the list if it
     * is absent, then calls the event's `startTimingCallback` once.
     */
    method AddEvent(tarRound: int, event: E) returns (ghost issued: seq<Callback<E>>)
      modifies this
      ensures eventMap == Add(old(eventMap), tarRound, event)
      ensures issued == [StartTiming(event)]
    {
      var eventList := if tarRound in eventMap then eventMap[tarRound] else [];
      eventList := eventList + [event];
      eventMap := eventMap[tarRound := eventList];
      issued := [StartTiming(event)];
    }

    /**
     * Does nothing for a round without a list. Otherwise calls
     * `timeoutCallback` on each event of the round's list in order, then
     * removes the round.
     */
    method PollEvent(tarRound: int) returns (ghost issued: seq<Callback<E>>)
      modifies this
      ensures eventMap == Poll(old(eventMap), tarRound)
      ensures issued == Fired(old(eventMap), tarRound)
    {
      if tarRound !in eventMap {
        issued := [];
        return;
      }
      var eventList := eventMap[tarRound];
      issued := [];
      var i := 0;
      while i < |eventList|
        invariant 0 <= i <= |eventList|
        invariant issued == Timeouts(eventList[..i])
      {
        assert eventList[..i + 1] == eventList[..i] + [eventList[i]];
        issued := issued + [Timeout(eventList[i])];
        i := i + 1;
      }
      assert eventList[..i] == eventList;
      eventMap := eventMap - {tarRound};
    }
  }
}
