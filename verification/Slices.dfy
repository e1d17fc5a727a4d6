/**
 Go slices: a window of given length on a shared backing array.  Appending
 writes into the backing array when there is room and moves to a new array
 when there is not, so two slices may or may not share storage afterwards.
 */
module Slices {
  datatype Slice<T> = Nil | Window(arr: array<T>, len: nat)
  {
    ghost predicate Valid() {
      Window? ==> len <= arr.Length
    }

    ghost function Footprint(): set<object> {
      if Window? then {arr} else {}
    }

    function Elems(): seq<T>
      requires Valid()
      reads if Window? then {arr} else {}
    {
      if Nil? then [] else arr[..len]
    }

    function Len(): nat {
      if Nil? then 0 else len
    }
  }

  /** `append(s, x)`; the capacity of a new array is the runtime's choice. */
  method Append<T>(s: Slice<T>, x: T) returns (r: Slice<T>)
    requires s.Valid()
    modifies s.Footprint()
    ensures r.Window? && r.Valid() && r.Elems() == old(s.Elems()) + [x]
    ensures s.Elems() == old(s.Elems())
    ensures fresh(r.arr) || (s.Window? && r.arr == s.arr && s.len < s.arr.Length)
    ensures fresh(r.arr) ==> forall a :: a in s.Footprint() ==> unchanged(a)
  {
    if s.Window? && s.len < s.arr.Length {
      s.arr[s.len] := x;
      r := Window(s.arr, s.len + 1);
    } else {
      var kept := s.Elems();
      var extra :| 0 <= extra;
      var grown := new T[|kept| + 1 + extra](i => if 0 <= i < |kept| then kept[i] else x);
      r := Window(grown, |kept| + 1);
      assert r.Elems() == kept + [x];
    }
  }
}
