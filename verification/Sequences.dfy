/** Facts about sequences that several models share. */
module Sequences {

  lemma Regroup<T>(a: seq<T>, b: seq<T>, c: seq<T>)
    ensures a + b + c == a + (b + c)
  {
  }

  lemma CutAppend<T>(a: seq<T>, b: seq<T>, n: nat)
    requires n <= |a|
    ensures (a + b)[..n] == a[..n] && (a + b)[n..] == a[n..] + b
  {
  }

  lemma Slices<T>(t: seq<T>, k: nat, l: nat)
    requires k <= l <= |t|
    ensures t[k..][..l - k] == t[..l][k..] && t[k..][l - k..] == t[l..]
  {
  }

}
