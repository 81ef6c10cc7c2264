/** Facts about sequences. */
module Seqs {
  lemma TakeNext<T>(s: seq<T>, n: nat)
    requires n < |s|
    ensures s[..n + 1] == s[..n] + [s[n]]
  {
  }

  lemma Regroup<T>(a: seq<T>, e: T, b: seq<T>)
    ensures a + ([e] + b) == (a + [e]) + b
  {
  }

  lemma NothingAdded<T>(a: seq<T>)
    ensures a + [] == a == [] + a
  {
  }

  lemma SplitAt<T>(s: seq<T>, n: nat)
    requires n <= |s|
    ensures s == s[..n] + s[n..] && |s[..n]| == n
    ensures forall i :: 0 <= i < |s| - n ==> s[n..][i] == s[n + i]
  {
  }

  lemma Assoc<T>(a: seq<T>, b: seq<T>, c: seq<T>)
    ensures (a + b) + c == a + (b + c)
  {
  }

  lemma LastSplit<T>(s: seq<T>)
    requires s != []
    ensures s == s[..|s| - 1] + [s[|s| - 1]]
  {
  }

  lemma LastUpdate<T>(s: seq<T>, e: T)
    requires s != []
    ensures s[|s| - 1 := e] == s[..|s| - 1] + [e]
  {
  }
}
