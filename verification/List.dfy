/** The node's generic list: a Go slice, that is, a window on a backing array it may share. */
module List {
  /** A slice value: the first `len` elements of a backing array, seen by whoever holds it. */
  datatype Slice<T> = Slice(buf: array<T>, len: nat) {
    ghost predicate Valid() { len <= buf.Length }

    ghost function Contents(): seq<T>
      requires Valid()
      reads buf
    {
      buf[..len]
    }
  }

  class List<T(==)> {
    var buf: array<T>
    var len: nat

    ghost predicate Valid()
      reads this
    {
      len <= buf.Length
    }

    ghost function Items(): (s: seq<T>)
      requires Valid()
      reads this, buf
      ensures |s| == len
    {
      buf[..len]
    }

    constructor ()
      ensures Valid() && Items() == [] && fresh(buf)
    {
      buf, len := new T[0], 0;
    }

    /** An index past the end is a panic. */
    method Get(index: nat) returns (v: T)
      requires Valid() && index < len
      ensures v == Items()[index]
    {
      v := buf[index];
    }

    /** `append`: in place while the capacity lasts, else into a new array with `slack` to spare. */
    method Insert(v: T, slack: nat)
      requires Valid()
      modifies this, buf
      ensures Valid() && Items() == old(Items()) + [v]
      ensures buf == old(buf) || fresh(buf)
      ensures old(buf)[..old(len)] == old(buf[..len])
    {
      if len < buf.Length {
        buf[len] := v;
      } else {
        buf := new T[len + 1 + slack](i requires 0 <= i reads this, buf =>
                                        if i < len && i < buf.Length then buf[i] else v);
      }
      len := len + 1;
    }

    method Clear()
      modifies this
      ensures Valid() && Items() == [] && fresh(buf)
    {
      buf, len := new T[0], 0;
    }

    method GetIndex(v: T) returns (index: int)
      requires Valid()
      ensures index == -1 ==> v !in Items()
      ensures index != -1 ==> 0 <= index < len && Items()[index] == v && v !in Items()[..index]
    {
      var i := 0;
      while i < len
        invariant 0 <= i <= len
        invariant v !in Items()[..i]
      {
        if buf[i] == v { return i; }
        i := i + 1;
      }
      return -1;
    }

    /** Closes the gap by shifting within the backing array, under any slice that shares it. */
    method Pop(index: nat)
      requires Valid() && index < len
      modifies this`len, buf
      ensures Valid()
      ensures Items() == old(Items())[..index] + old(Items())[index + 1..]
    {
      var i := index;
      while i + 1 < len
        invariant index <= i < len == old(len)
        invariant forall k :: 0 <= k < index ==> buf[k] == old(buf[k])
        invariant forall k :: index <= k < i ==> buf[k] == old(buf[k + 1])
        invariant forall k :: i < k < len ==> buf[k] == old(buf[k])
      {
        buf[i] := buf[i + 1];
        i := i + 1;
      }
      len := len - 1;
    }

    /** Drops the first element equal to `v`, if there is one. */
    method Remove(v: T)
      requires Valid()
      modifies this`len, buf
      ensures Valid()
      ensures v !in old(Items()) ==> Items() == old(Items())
      ensures v in old(Items()) ==>
                exists i :: && 0 <= i < |old(Items())| && old(Items())[i] == v
                            && v !in old(Items())[..i]
                            && Items() == old(Items())[..i] + old(Items())[i + 1..]
    {
      var index := GetIndex(v);
      if index != -1 {
        Pop(index);
      }
    }
  }
}
