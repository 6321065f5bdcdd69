/** `random.shuffle`, the Fisher-Yates shuffle of Python's standard
    library, in place on an array, with the random draws as an input:
    `pick(i)` stands for `randbelow(i + 1)`, reduced below `i + 1`. */
module Shuffling {

  method Shuffle<T>(a: array<T>, pick: nat -> nat)
    modifies a
    ensures multiset(a[..]) == multiset(old(a[..]))
  {
    var i := a.Length;
    while i > 1
      invariant 0 <= i <= a.Length
      invariant multiset(a[..]) == multiset(old(a[..]))
    {
      i := i - 1;
      var j := pick(i) % (i + 1);
      a[i], a[j] := a[j], a[i];
    }
  }
}
