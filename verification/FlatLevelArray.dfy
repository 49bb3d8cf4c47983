/** The level of the tuned Java book: a ladder level whose ids sit in an array that doubles when it is full. */
module FlatLevelArray {
  import opened Ladder

  class GrowingLevel {
    var ids: array<nat>
    var head: nat
    var size: nat

    ghost predicate Valid()
      reads this
    {
      head <= size <= ids.Length && ids.Length >= 16
    }

    /** The level of the tuned engine's ladder that this one stands for. */
    ghost function Level(): (l: FlatLevel)
      reads this, ids
      requires Valid()
      ensures l.head <= |l.ids| && l.Waiting() == ids[head..size]
    {
      FlatLevel(ids[..size], head)
    }

    constructor ()
      ensures Valid() && fresh(ids) && ids.Length == 16 && Level() == FRESH
    {
      ids := new nat[16](_ => 0);
      head, size := 0, 0;
    }

    predicate IsEmpty()
      reads this, ids
      requires Valid()
      ensures IsEmpty() <==> Level().IsEmpty()
    {
      head == size
    }

    /** Forget every id but keep the array. */
    method Reset()
      requires Valid()
      modifies `head, `size
      ensures Valid() && Level() == FRESH
    {
      head, size := 0, 0;
    }

    method PopFront() returns (id: nat)
      requires Valid() && !IsEmpty()
      modifies `head
      ensures Valid() && Level() == PastHead(old(Level()))
      ensures [id] + Level().Waiting() == old(Level().Waiting())
    {
      id := ids[head];
      head := head + 1;
    }

    /** A longer array that starts with what `a` holds. */
    static method CopyOf(a: array<nat>, length: nat) returns (b: array<nat>)
      requires a.Length <= length
      ensures fresh(b) && b.Length == length && b[..a.Length] == a[..]
    {
      b := new nat[length](_ => 0);
      for i := 0 to a.Length
        invariant b[..i] == a[..i]
      {
        b[i] := a[i];
      }
      assert b[..a.Length] == a[..a.Length] == a[..];
    }

    /** Append, moving to an array twice as long first if there is no room. */
    method Push(id: nat)
      requires Valid()
      modifies this, ids
      ensures Valid() && Level() == PushLevel(old(Level()), id)
      ensures ids == old(ids) || (fresh(ids) && ids.Length == 2 * old(ids.Length) && old(size) == old(ids.Length))
    {
      ghost var s := ids[..size];
      if size == ids.Length {
        ids := CopyOf(ids, size * 2);
        assert ids[..size] == s;
      }
      ids[size] := id;
      size := size + 1;
      assert ids[..size] == s + [id];
    }
  }
}
