/**
  * The stack-like vectors of src/ass/utils/weirdvec.rs. `BorrowVec` is a
  * fixed-capacity stack living in a borrowed slice: the first `len` slots
  * of the slice are its elements, the rest is spare room. `Vec`, the
  * standard growable vector, implements the same push and pop interface.
  *
  * A borrowed slice `&mut [T]` is modelled as an array together with the
  * bounds `lo .. hi` of the window the slice covers.
  */
module WeirdVec {
  import opened Wrappers

  /** A `&mut [T]`: the window `lo .. hi` of an array. */
  datatype Slice<T> = Slice(arr: array<T>, lo: nat, hi: nat)
  {
    predicate Valid()
    {
      lo <= hi <= arr.Length
    }

    /** The slice's contents. */
    function Elements(): seq<T>
      requires Valid()
      reads arr
    {
      arr[lo..hi]
    }
  }

  /** `BorrowVec`: a stack of at most `hi - lo` elements stored in `data[lo..hi]`. */
  class BorrowVec<T> {
    var data: array<T>
    var lo: nat
    var hi: nat
    var len: nat

    /** The slice is a window of the array and the stack fits in it. */
    predicate Valid()
      reads this
    {
      lo <= hi <= data.Length && len <= hi - lo
    }

    /** `capacity`: the length of the borrowed slice. */
    function Capacity(): (c: nat)
      reads this
      requires Valid()
      ensures len <= c
    {
      hi - lo
    }

    /** `deref`: the elements, `data[..len]` of the slice. */
    function View(): (s: seq<T>)
      reads this, data
      requires Valid()
      ensures |s| == len
      ensures forall i :: 0 <= i < len ==> s[i] == data[lo + i]
    {
      data[lo..lo + len]
    }

    /** `from_empty`: an empty stack over the whole of `slice`. */
    constructor FromEmpty(slice: Slice<T>)
      requires slice.Valid()
      ensures data == slice.arr && lo == slice.lo && hi == slice.hi
      ensures len == 0
      ensures Valid() && View() == []
    {
      data, lo, hi := slice.arr, slice.lo, slice.hi;
      len := 0;
    }

    /**
      * `push`: on a full stack, hand the value back and change nothing;
      * otherwise store it in the first spare slot.
      */
    method Push(val: T) returns (r: Result<(), T>)
      requires Valid()
      modifies this, data
      ensures Valid()
      ensures data == old(data) && lo == old(lo) && hi == old(hi)
      ensures old(len) == old(Capacity()) ==>
        r == Err(val) && len == old(len) && data[..] == old(data[..])
      ensures old(len) < old(Capacity()) ==>
        r == Ok(()) && len == old(len) + 1
        && data[..] == old(data[..])[lo + old(len) := val]
        && View() == old(View()) + [val]
    {
      if len == hi - lo {
        return Err(val);
      }
      data[lo + len] := val;
      len := len + 1;
      assert View() == old(View()) + [val];
      return Ok(());
    }

    /**
      * `pop`: `None` on an empty stack; otherwise the top element, which
      * stays in the slice but is no longer part of the stack.
      */
    method Pop() returns (r: Option<T>)
      requires Valid()
      modifies this
      ensures Valid()
      ensures data == old(data) && lo == old(lo) && hi == old(hi)
      ensures old(len) == 0 ==> r == None && len == 0
      ensures old(len) > 0 ==>
        r == Some(data[lo + old(len) - 1]) && len == old(len) - 1
        && View() == old(View())[..old(len) - 1]
    {
      if len == 0 {
        return None;
      }
      var val := data[lo + len - 1];
      len := len - 1;
      return Some(val);
    }

    /** `deref_mut` followed by an assignment to element `i` of the view. */
    method Set(i: nat, val: T)
      requires Valid() && i < len
      modifies data
      ensures View() == old(View())[i := val]
      ensures data[..] == old(data[..])[lo + i := val]
    {
      data[lo + i] := val;
    }

    /**
      * `split`: the stack's elements as a slice, and an empty stack over the
      * spare room after them. The two windows do not overlap.
      */
    method Split() returns (left: Slice<T>, right: BorrowVec<T>)
      requires Valid()
      ensures fresh(right) && right.Valid()
      ensures left == Slice(data, lo, lo + len) && left.Valid()
      ensures left.Elements() == View()
      ensures right.data == data && right.lo == lo + len && right.hi == hi
      ensures right.len == 0 && right.Capacity() == Capacity() - len
    {
      left := Slice(data, lo, lo + len);
      right := new BorrowVec.FromEmpty(Slice(data, lo + len, hi));
    }
  }

  /** A push followed by a pop returns the pushed value and restores the stack. */
  method PushThenPop<T>(v: BorrowVec<T>, val: T) returns (r: Option<T>)
    requires v.Valid() && v.len < v.Capacity()
    modifies v, v.data
    ensures r == Some(val)
    ensures v.Valid() && v.len == old(v.len) && v.View() == old(v.View())
  {
    var pushed := v.Push(val);
    r := v.Pop();
  }

  /** `Vec<T>` as a `GenericVec`: a growable stack. */
  class Vec<T> {
    var elems: seq<T>

    constructor ()
      ensures elems == []
    {
      elems := [];
    }

    function Len(): (n: nat)
      reads this
      ensures n == |elems|
    {
      |elems|
    }

    /** `push` never fails on a `Vec`. */
    method Push(val: T) returns (r: Result<(), T>)
      modifies this
      ensures r == Ok(())
      ensures elems == old(elems) + [val]
    {
      elems := elems + [val];
      return Ok(());
    }

    method Pop() returns (r: Option<T>)
      modifies this
      ensures old(elems) == [] ==> r == None && elems == []
      ensures old(elems) != [] ==>
        r == Some(old(elems)[|old(elems)| - 1]) && elems == old(elems)[..|old(elems)| - 1]
    {
      if elems == [] {
        return None;
      }
      r := Some(elems[|elems| - 1]);
      elems := elems[..|elems| - 1];
    }
  }
}
