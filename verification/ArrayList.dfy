/** The growable pointer list: append, set past the end, and insertion in order. */
module ArrayList {
  import opened Option

  const DEFAULT_SIZE := 32

  function Nones<T>(n: nat): (s: seq<Option<T>>)
    ensures |s| == n && forall i :: 0 <= i < n ==> s[i] == None
  {
    if n == 0 then [] else Nones(n - 1) + [None]
  }

  function Somes<T>(s: seq<T>): (r: seq<Option<T>>)
    ensures |r| == |s| && forall i :: 0 <= i < |s| ==> r[i] == Some(s[i])
  {
    if s == [] then [] else Somes(s[..|s| - 1]) + [Some(s[|s| - 1])]
  }

  /** In front of the first greater element, so behind the elements that compare equal. */
  function Inserted<T>(s: seq<T>, x: T, greater: (T, T) -> bool): (r: seq<T>) {
    if s == [] then [x]
    else if greater(s[0], x) then [x] + s
    else [s[0]] + Inserted(s[1..], x, greater)
  }

  lemma {:induction false} InsertedAt<T>(s: seq<T>, x: T, greater: (T, T) -> bool, i: nat)
    requires i <= |s| && (forall j :: 0 <= j < i ==> !greater(s[j], x)) && (i < |s| ==> greater(s[i], x))
    ensures Inserted(s, x, greater) == s[..i] + [x] + s[i..]
  {
    if i > 0 {
      InsertedAt(s[1..], x, greater, i - 1);
      assert s[..i] == [s[0]] + s[1..][..i - 1];
      assert s[1..][i - 1..] == s[i..];
    }
  }

  lemma {:induction false} SomesInserted<T>(s: seq<T>, x: T, i: nat)
    requires i <= |s|
    ensures Somes(s[..i] + [x] + s[i..]) == Somes(s)[..i] + [Some(x)] + Somes(s)[i..]
  {
    var r, t := s[..i] + [x] + s[i..], Somes(s)[..i] + [Some(x)] + Somes(s)[i..];
    forall j | 0 <= j < |r|
      ensures Somes(r)[j] == t[j]
    {
    }
  }

  /** The capacity after an expansion for an index. */
  function Grown(size: nat, index: nat): (r: nat) {
    if 2 * size < index then index else 2 * size
  }

  /** The capacity when zc_arraylist_set stores at the index. */
  function CapacityFor(size: nat, index: nat): (r: nat) {
    if index > size - 1 then Grown(size, index) else size
  }

  /** The store is inside the block exactly for an index below twice the size; the expansion is one slot short. */
  lemma SetInBoundsExactlyWhen(size: nat, index: nat)
    requires 0 < size
    ensures index < CapacityFor(size, index) <==> index < 2 * size
  {
  }

  /** A fresh list has room for 32 elements; index 64 is stored behind the end of the 64 slots it grows to. */
  lemma SetOutOfBounds()
    ensures CapacityFor(DEFAULT_SIZE, 64) == 64
  {
  }

  class ArrayList<T> {
    var slots: array<Option<T>>
    var len: nat

    /** Slots that were never filled are NULL. */
    ghost predicate Valid()
      reads this, slots
    {
      0 < slots.Length && len <= slots.Length && forall i :: len <= i < slots.Length ==> slots[i] == None
    }

    ghost function Items(): (s: seq<Option<T>>)
      requires Valid()
      reads this, slots
    {
      slots[..len]
    }

    constructor ()
      ensures Valid() && Items() == [] && fresh(slots)
    {
      slots := new Option<T>[DEFAULT_SIZE](_ => None);
      len := 0;
    }

    /** Capacity max(2 * size, max): enough for the slot after the last, not for an arbitrary max. */
    method Expand(max: nat)
      requires Valid()
      modifies this`slots
      ensures Valid() && Items() == old(Items()) && fresh(slots)
      ensures slots.Length == Grown(old(slots.Length), max)
    {
      var newSize := slots.Length * 2;
      if newSize < max {
        newSize := max;
      }
      var bigger := new Option<T>[newSize](_ => None);
      forall i | 0 <= i < slots.Length {
        bigger[i] := slots[i];
      }
      assert bigger[..len] == slots[..len];
      slots := bigger;
    }

    /** Requires what SetInBoundsExactlyWhen shows to be exactly the indices that stay in bounds. */
    method Set(index: nat, data: T)
      requires Valid() && index < CapacityFor(slots.Length, index)
      modifies this, slots
      ensures Valid() && (slots == old(slots) || fresh(slots))
      ensures Items() == if index < old(len) then old(Items())[index := Some(data)]
                         else old(Items()) + Nones(index - old(len)) + [Some(data)]
    {
      SetInBoundsExactlyWhen(slots.Length, index);
      if index > slots.Length - 1 {
        Expand(index);
      }
      slots[index] := Some(data);
      if len <= index {
        len := index + 1;
      }
    }

    method Add(data: T)
      requires Valid()
      modifies this, slots
      ensures Valid() && (slots == old(slots) || fresh(slots))
      ensures Items() == old(Items()) + [Some(data)]
    {
      Set(len, data);
    }

    /** memmove of the tail by one slot, and the new element in the gap. */
    method ShiftIn(index: nat, data: T)
      requires Valid() && index < len < slots.Length
      modifies slots, this`len
      ensures Valid() && Items() == old(Items())[..index] + [Some(data)] + old(Items())[index..]
    {
      ghost var was := Items();
      forall i | index <= i < len {
        slots[i + 1] := slots[i];
      }
      slots[index] := Some(data);
      len := len + 1;
      forall i | 0 <= i < len
        ensures Items()[i] == (was[..index] + [Some(data)] + was[index..])[i]
      {
      }
    }

    /** An empty slot is filled; otherwise the tail makes room. */
    method InsertInner(index: nat, data: T)
      requires Valid() && index < len
      modifies this, slots
      ensures Valid() && (slots == old(slots) || fresh(slots))
      ensures Items() == if old(Items())[index] == None then old(Items())[index := Some(data)]
                         else old(Items())[..index] + [Some(data)] + old(Items())[index..]
    {
      if slots[index] == None {
        slots[index] := Some(data);
        return;
      }
      if len > slots.Length - 1 {
        Expand(0);
      }
      ShiftIn(index, data);
    }

    /** The first element that compares greater, or the end. */
    method FirstGreater(data: T, greater: (T, T) -> bool, ghost was: seq<T>) returns (i: nat)
      requires Valid() && Items() == Somes(was)
      ensures i <= len && (forall j :: 0 <= j < i ==> !greater(was[j], data)) && (i < len ==> greater(was[i], data))
    {
      i := 0;
      while i < len
        invariant 0 <= i <= len && forall j :: 0 <= j < i ==> !greater(was[j], data)
      {
        assert slots[i] == Items()[i];
        if greater(slots[i].value, data) {
          return;
        }
        i := i + 1;
      }
    }

    method SortAdd(data: T, greater: (T, T) -> bool, ghost was: seq<T>)
      requires Valid() && Items() == Somes(was)
      modifies this, slots
      ensures Valid() && (slots == old(slots) || fresh(slots))
      ensures Items() == Somes(Inserted(was, data, greater))
    {
      var i := FirstGreater(data, greater, was);
      InsertedAt(was, data, greater, i);
      SomesInserted(was, data, i);
      if i == len {
        assert Somes(was)[..i] == Somes(was) && Somes(was)[i..] == [];
        Add(data);
      } else {
        assert slots[i] == Items()[i];
        InsertInner(i, data);
      }
    }
  }
}
