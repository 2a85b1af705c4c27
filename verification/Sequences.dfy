/** Sequence algebra the proofs lean on, kept apart from the functions it is used about. */
module Sequences {
  lemma Associative<T>(a: seq<T>, b: seq<T>, c: seq<T>)
    ensures (a + b) + c == a + (b + c)
  {
  }

  lemma EmptyUnit<T>(s: seq<T>)
    ensures [] + s == s && s + [] == s
  {
  }

  lemma Whole<T>(s: seq<T>)
    ensures s[0..] == s == s[0..|s|] && s[|s|..] == []
    ensures s != [] ==> [s[0]] + s[1..] == s
  {
  }

  lemma PrefixOnto<T>(s: seq<T>, a: seq<T>, b: seq<T>)
    requires a <= b
    ensures s + a <= s + b && s <= s + a
  {
  }

  lemma HeadAt<T>(s: seq<T>, i: nat)
    requires i < |s|
    ensures [s[i]] + s[i + 1..] == s[i..]
  {
  }

  lemma FirstOfConcat<T>(a: seq<T>, b: seq<T>)
    requires a != []
    ensures (a + b)[0] == a[0] && (a + b)[1..] == a[1..] + b
  {
  }

  lemma CutAt<T>(s: seq<T>, from: nat, end: nat)
    requires from <= end <= |s|
    ensures s[from..end] + s[end..] == s[from..]
  {
  }
}
