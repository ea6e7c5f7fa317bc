/** Sequences of any kind. */
module Sequences {
  function Last<T>(s: seq<T>): T
    requires s != []
  {
    s[|s| - 1]
  }

  lemma {:induction false} TakeLast<T>(s: seq<T>, n: nat)
    requires 0 < n <= |s|
    ensures s[..n] == s[..n - 1] + [s[n - 1]]
  {}

  lemma {:induction false} TakeAll<T>(s: seq<T>)
    ensures s[..|s|] == s
  {}

  lemma {:induction false} AppendLast<T>(s: seq<T>, more: seq<T>)
    ensures if more == [] then s + more == s else s + more == (s + more[..|more| - 1]) + [more[|more| - 1]]
  {}
}
