/** What append does to a Go slice whose array has no room left. */
module Slices {

  /** The new array of append: the elements of the slice, the new one, and spare capacity. */
  method Grow<T>(data: array<T>, start: nat, len: nat, x: T) returns (bigger: array<T>)
    requires start + len <= data.Length
    ensures fresh(bigger) && len < bigger.Length
    ensures bigger[..len + 1] == data[start..start + len] + [x]
  {
    bigger := new T[2 * len + 1](_ => x);
    for i := 0 to len
      invariant bigger[..i] == data[start..start + i]
      invariant bigger[len] == x
      invariant data[..] == old(data[..])
    {
      bigger[i] := data[start + i];
    }
  }
}
