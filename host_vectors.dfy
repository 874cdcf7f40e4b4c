/** Host-side vector helpers shared by the host programs. */
module HostVectors {
  /** std::generate: fills the vector front to back with the given values, the successive results of the generator. */
  method Generate(a: array<int>, values: seq<int>)
    requires |values| == a.Length
    modifies a
    ensures a[..] == values
  {
    var i := 0;
    while i < a.Length
      invariant 0 <= i <= a.Length
      invariant a[..i] == values[..i]
    {
      a[i] := values[i];
      assert a[..i + 1] == a[..i] + [values[i]];
      i := i + 1;
    }
  }
}
