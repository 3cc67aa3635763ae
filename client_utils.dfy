/** The client helpers the bot environment calls. */
module ClientUtils {

  /** Returns the elements of `xs` in some order: every element is kept with
      its multiplicity. Which order is chosen is left open, standing for the
      random order the client picks. */
  method Shuffle<T(==)>(xs: seq<T>) returns (ys: seq<T>)
    ensures multiset(ys) == multiset(xs)
  {
    ys := [];
    var rest := xs;
    while rest != []
      invariant multiset(ys) + multiset(rest) == multiset(xs)
      decreases |rest|
    {
      var k :| 0 <= k < |rest|;
      assert rest == rest[..k] + [rest[k]] + rest[k + 1..];
      ys := ys + [rest[k]];
      rest := rest[..k] + rest[k + 1..];
    }
  }
}
