/** Facts about sequences and their multisets. */
module Seqs {

  lemma Removed<T>(b: seq<T>, i: nat)
    requires i < |b|
    ensures multiset(b[..i] + b[i + 1..]) == multiset(b) - multiset{b[i]}
    ensures multiset(b) == multiset(b[..i] + b[i + 1..]) + multiset{b[i]}
  {
    assert b == b[..i] + ([b[i]] + b[i + 1..]);
  }

  lemma RemovedFirst<T>(a: seq<T>)
    requires a != []
    ensures multiset(a[1..]) == multiset(a) - multiset{a[0]}
    ensures multiset(a) == multiset(a[1..]) + multiset{a[0]}
  {
    assert a == [a[0]] + a[1..];
  }

  ghost predicate NoRepeats<T>(s: seq<T>) {
    forall i, j | 0 <= i < j < |s| :: s[i] != s[j]
  }

  /** In a sequence without repeats every element counts once. */
  lemma {:induction false} CountsOnce<T>(s: seq<T>)
    requires NoRepeats(s)
    ensures forall x | x in s :: multiset(s)[x] == 1
  {
    if s != [] {
      RemovedFirst(s);
      CountsOnce(s[1..]);
      forall x | x in s ensures multiset(s)[x] == 1 {
        if x == s[0] {
          assert x !in s[1..];
        }
      }
    }
  }
}
