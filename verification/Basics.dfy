module Options {
  datatype Option<+T> = None | Some(value: T)
}

module Search {
  /** Position of the first element with a property, or the length. */
  function FirstIndex<T>(s: seq<T>, p: T -> bool): (index: nat)
    ensures index <= |s|
    ensures index < |s| ==> p(s[index])
    ensures forall i :: 0 <= i < index ==> !p(s[i])
  {
    if s == [] || p(s[0]) then 0 else 1 + FirstIndex(s[1..], p)
  }
}

module Numbers {
  /** Conversion of a float to an integer, which drops the fraction whatever the sign. */
  function Truncate(x: real): (n: int)
    ensures x >= 0.0 ==> 0.0 <= n as real <= x < n as real + 1.0
    ensures x < 0.0 ==> n as real - 1.0 < x <= n as real <= 0.0
  {
    if x >= 0.0 then x.Floor else -((-x).Floor)
  }
}
