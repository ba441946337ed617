/** Vocabulary shared by the whole project.  Go strings are byte sequences; they are
    modelled as Dafny strings in which every character stands for one byte. */
module Prelude {
  datatype Option<+T> = None | Some(value: T)

  datatype Result<+T> = Ok(value: T) | Err(message: string)

  function Max(a: int, b: int): int {
    if a >= b then a else b
  }

  function Min(a: int, b: int): int {
    if a <= b then a else b
  }

  function Flatten<T>(parts: seq<seq<T>>): seq<T> {
    if parts == [] then [] else parts[0] + Flatten(parts[1..])
  }

  lemma {:induction false} FlattenAppend<T>(a: seq<seq<T>>, b: seq<seq<T>>)
    ensures Flatten(a + b) == Flatten(a) + Flatten(b)
  {
    if a == [] {
      assert a + b == b;
    } else {
      assert (a + b)[0] == a[0] && (a + b)[1..] == a[1..] + b;
      FlattenAppend(a[1..], b);
    }
  }

  lemma {:induction false} FlattenSingle<T>(part: seq<T>)
    ensures Flatten([part]) == part
  {
    assert [part][1..] == [];
  }

  lemma {:induction false} FlattenSplit<T>(parts: seq<seq<T>>, a: nat, b: nat)
    requires a <= b <= |parts|
    ensures Flatten(parts[..b]) == Flatten(parts[..a]) + Flatten(parts[a..b])
  {
    assert parts[..b] == parts[..a] + parts[a..b];
    FlattenAppend(parts[..a], parts[a..b]);
  }

  lemma {:induction false} FullSlice<T>(s: seq<T>)
    ensures s[..|s|] == s && s[0..] == s && s[..0] == [] && s[|s|..] == []
  {
  }

  predicate HasPrefix(s: string, prefix: string) {
    |prefix| <= |s| && s[..|prefix|] == prefix
  }
}
