/** A JavaScript array that the engine changes in place (`pop`, `push`, `splice`,
    element assignment), seen by every holder of a reference to it. */
module JsArrays {

  import opened Values

  class JsArray {
    var items: seq<Value>

    constructor (items: seq<Value>)
      ensures this.items == items
    {
      this.items := items;
    }

    /** `pop()`: removes the last element and returns it; `undefined` when empty. */
    method Pop() returns (last: Value)
      modifies this
      ensures old(items) == [] ==> items == [] && last == Undef
      ensures old(items) != [] ==> items == old(items)[..|old(items)| - 1] && last == old(items)[|old(items)| - 1]
    {
      if items == [] {
        return Undef;
      }
      last := items[|items| - 1];
      items := items[..|items| - 1];
    }

    /** `push(v)`. */
    method Push(v: Value)
      modifies this
      ensures items == old(items) + [v]
    {
      items := items + [v];
    }

    /** `splice(i, 1)` for an index in range: the element at `i` is removed and the
        later ones move down. */
    method RemoveAt(i: nat)
      requires i < |items|
      modifies this
      ensures items == old(items)[..i] + old(items)[i + 1..]
    {
      items := items[..i] + items[i + 1..];
    }

    /** `a[i] = v` for an index in range. */
    method SetAt(i: nat, v: Value)
      requires i < |items|
      modifies this
      ensures items == old(items)[i := v]
    {
      items := items[i := v];
    }
  }
}
