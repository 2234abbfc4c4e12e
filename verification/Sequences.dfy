/** Sequences of sequences. */
module Sequences {

  function Flatten<T>(parts: seq<seq<T>>): seq<T> {
    if parts == [] then [] else Flatten(parts[..|parts| - 1]) + parts[|parts| - 1]
  }

  lemma FlattenOne<T>(part: seq<T>)
    ensures Flatten([part]) == part
  {
    assert [part][..0] == [];
  }

  lemma {:induction false} FlattenSplit<T>(parts: seq<seq<T>>, i: nat)
    requires i <= |parts|
    ensures Flatten(parts) == Flatten(parts[..i]) + Flatten(parts[i..])
    decreases |parts|
  {
    if i == |parts| {
      assert parts[..i] == parts;
    } else {
      var n := |parts| - 1;
      FlattenSplit(parts[..n], i);
      assert parts[i..][..n - i] == parts[..n][i..] && parts[..n][..i] == parts[..i];
    }
  }
}
