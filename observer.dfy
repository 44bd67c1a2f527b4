/**
 * The occupation observer (src/services/classroomObserver.ts): a list of subscribed
 * observers, a polling flag and the set of room ids that were occupied at the last
 * change. A poll notifies every observer, in subscription order, exactly when the set of
 * occupied rooms differs from the remembered one.
 */
module ClassroomObservers {
  import opened Wrappers
  import Seqs

  /** `indexOf` followed by `splice(index, 1)` when the index is found. */
  function RemoveFirst<T(==)>(s: seq<T>, x: T): seq<T>
  {
    var i := Seqs.IndexOf(s, x);
    if i > -1 then s[..i] + s[i + 1..] else s
  }

  /** Removing takes out one copy of `x` when there is one, and nothing else. */
  lemma RemoveFirstSpec<T>(s: seq<T>, x: T)
    ensures x !in s ==> RemoveFirst(s, x) == s
    ensures x in s ==> |RemoveFirst(s, x)| == |s| - 1
    ensures multiset(RemoveFirst(s, x)) == multiset(s) - multiset{x}
    ensures Seqs.IsSubsequence(RemoveFirst(s, x), s)
  {
    var i := Seqs.IndexOf(s, x);
    if i > -1 {
      DropOneMultiset(s, i);
      DropOneIsSubsequence(s, i);
    } else {
      SubsequenceRefl(s);
    }
  }

  lemma DropOneMultiset<T>(s: seq<T>, i: int)
    requires 0 <= i < |s|
    ensures multiset(s[..i] + s[i + 1..]) == multiset(s) - multiset{s[i]}
    ensures |s[..i] + s[i + 1..]| == |s| - 1
  {
    assert s == s[..i] + [s[i]] + s[i + 1..];
  }

  lemma {:induction false} SubsequenceRefl<T>(s: seq<T>)
    ensures Seqs.IsSubsequence(s, s)
    decreases |s|
  {
    if s != [] {
      SubsequenceRefl(s[1..]);
    }
  }

  lemma {:induction false} DropOneIsSubsequence<T>(s: seq<T>, i: int)
    requires 0 <= i < |s|
    ensures Seqs.IsSubsequence(s[..i] + s[i + 1..], s)
    decreases i
  {
    if i == 0 {
      assert s[..0] + s[1..] == s[1..];
      SubsequenceRefl(s[1..]);
    } else {
      DropOneIsSubsequence(s[1..], i - 1);
      var r := s[..i] + s[i + 1..];
      assert r[0] == s[0];
      assert r[1..] == s[1..][..i - 1] + s[1..][i..];
    }
  }

  /** Unsubscribing right after a first subscription gives back the earlier list. */
  lemma UnsubscribeUndoesSubscribe<T>(s: seq<T>, x: T)
    requires x !in s
    ensures RemoveFirst(s + [x], x) == s
  {
    assert Seqs.IndexOf(s + [x], x) == |s| by {
      assert (s + [x])[|s|] == x;
      assert (s + [x])[..|s|] == s;
    }
  }

  /** A JavaScript `Set<number>`: its elements without repetition, in insertion order. */
  predicate Distinct(s: seq<int>)
  {
    forall i, j :: 0 <= i < j < |s| ==> s[i] != s[j]
  }

  function Elements(s: seq<int>): set<int>
  {
    set x | x in s
  }

  /** `new Set(ids)`: the first occurrence of each id, in order. */
  function ToSet(ids: seq<int>): (r: seq<int>)
    ensures Distinct(r)
    ensures forall x :: x in r <==> x in ids
    decreases |ids|
  {
    if ids == [] then []
    else
      var d := ToSet(ids[..|ids| - 1]);
      var x := ids[|ids| - 1];
      assert ids == ids[..|ids| - 1] + [x];
      if x in d then d else d + [x]
  }

  /**
   * The two loops of `checkOccupations`: first a room that became occupied, then, if none
   * was found, a room that became free. Each stops at the first difference.
   */
  method HasChanges(current: seq<int>, last: seq<int>) returns (changed: bool)
    ensures changed <==> Elements(current) != Elements(last)
  {
    changed := false;
    var i := 0;
    while i < |current| && !changed
      invariant 0 <= i <= |current|
      invariant !changed ==> forall k :: 0 <= k < i ==> current[k] in last
      invariant changed ==> exists k :: 0 <= k < |current| && current[k] !in last
    {
      if current[i] !in last {
        changed := true;
      }
      i := i + 1;
    }
    if !changed {
      var j := 0;
      while j < |last| && !changed
        invariant 0 <= j <= |last|
        invariant !changed ==> forall k :: 0 <= k < j ==> last[k] in current
        invariant changed ==> exists k :: 0 <= k < |last| && last[k] !in current
      {
        if last[j] !in current {
          changed := true;
        }
        j := j + 1;
      }
      if !changed {
        assert Elements(current) == Elements(last);
      }
    }
    if changed {
      if exists k :: 0 <= k < |current| && current[k] !in last {
        var k :| 0 <= k < |current| && current[k] !in last;
        assert current[k] in Elements(current) && current[k] !in Elements(last);
      } else {
        var k :| 0 <= k < |last| && last[k] !in current;
        assert last[k] in Elements(last) && last[k] !in Elements(current);
      }
    }
  }

  /**
   * The observer. `O` stands for the observer callbacks, compared by identity as
   * `indexOf` does; `notified` records the callbacks invoked, in order.
   */
  class ClassroomObserver<O(==)> {
    var observers: seq<O>
    var isChecking: bool
    var lastOccupiedRooms: seq<int>
    var notified: seq<O>

    /** Polling runs exactly while somebody is subscribed, and an idle observer remembers nothing. */
    predicate Valid()
      reads this
    {
      (isChecking <==> observers != []) && Distinct(lastOccupiedRooms) && (!isChecking ==> lastOccupiedRooms == [])
    }

    constructor ()
      ensures Valid()
      ensures observers == [] && !isChecking && lastOccupiedRooms == [] && notified == []
    {
      observers := [];
      isChecking := false;
      lastOccupiedRooms := [];
      notified := [];
    }

    /** `subscribe`: append the callback and start polling if it was idle (the first poll is a separate `CheckOccupations`). */
    method Subscribe(o: O)
      requires Valid()
      modifies this
      ensures Valid()
      ensures observers == old(observers) + [o] && isChecking
      ensures lastOccupiedRooms == old(lastOccupiedRooms) && notified == old(notified)
    {
      observers := observers + [o];
      if !isChecking {
        StartChecking();
      }
    }

    /** The function `subscribe` returns: drop the first copy of the callback, and stop polling once the list is empty. */
    method Unsubscribe(o: O)
      requires Valid()
      modifies this
      ensures Valid()
      ensures observers == RemoveFirst(old(observers), o)
      ensures isChecking == (observers != [])
      ensures lastOccupiedRooms == (if observers == [] then [] else old(lastOccupiedRooms))
      ensures notified == old(notified)
    {
      var index := Seqs.IndexOf(observers, o);
      if index > -1 {
        observers := observers[..index] + observers[index + 1..];
      }
      if |observers| == 0 {
        StopChecking();
      }
    }

    method StartChecking()
      modifies this`isChecking
      ensures isChecking
    {
      isChecking := true;
    }

    method StopChecking()
      modifies this`isChecking, this`lastOccupiedRooms
      ensures !isChecking && lastOccupiedRooms == []
    {
      isChecking := false;
      lastOccupiedRooms := [];
    }

    /**
     * One poll, given the room ids of the occupations fetched for now (`None` when the
     * fetch fails, which only logs). On a change the new set is remembered and every
     * observer is called once.
     */
    method CheckOccupations(fetch: Option<seq<int>>)
      requires Valid()
      modifies this`lastOccupiedRooms, this`notified
      ensures Valid()
      ensures !isChecking || fetch.None? || Elements(fetch.value) == Elements(old(lastOccupiedRooms)) ==>
        lastOccupiedRooms == old(lastOccupiedRooms) && notified == old(notified)
      ensures isChecking && fetch.Some? && Elements(fetch.value) != Elements(old(lastOccupiedRooms)) ==>
        lastOccupiedRooms == ToSet(fetch.value) && notified == old(notified) + observers
    {
      if !isChecking {
        return;
      }
      match fetch {
        case None =>
        case Some(ids) =>
          var current := ToSet(ids);
          var changed := HasChanges(current, lastOccupiedRooms);
          assert Elements(current) == Elements(ids);
          if changed {
            lastOccupiedRooms := current;
            NotifyObservers();
          }
      }
    }

    /** `notifyObservers`: call each subscribed callback once, in subscription order. */
    method NotifyObservers()
      modifies this`notified
      ensures notified == old(notified) + observers
    {
      var i := 0;
      while i < |observers|
        invariant 0 <= i <= |observers|
        invariant notified == old(notified) + observers[..i]
      {
        notified := notified + [observers[i]];
        i := i + 1;
        assert observers[..i] == observers[..i - 1] + [observers[i - 1]];
      }
      assert observers[..i] == observers;
    }
  }

  /** A subscribe/unsubscribe pair on an idle observer returns it to idle and forgetful. */
  method SubscribeThenUnsubscribe<O(==)>(c: ClassroomObserver<O>, o: O)
    requires c.Valid() && c.observers == []
    modifies c
    ensures c.Valid() && c.observers == [] && !c.isChecking && c.lastOccupiedRooms == []
  {
    c.Subscribe(o);
    UnsubscribeUndoesSubscribe([], o);
    c.Unsubscribe(o);
  }
}
