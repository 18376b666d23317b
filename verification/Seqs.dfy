/** Facts about sequences that the verifier needs to be told. */
module Seqs {

  lemma Regroup<T>(a: seq<T>, b: seq<T>, c: seq<T>)
    ensures (a + b) + c == a + (b + c)
  {}

  lemma Cut<T>(s: seq<T>, at: nat) returns (front: seq<T>)
    requires at <= |s|
    ensures |front| == at && s == front + s[at..]
  {
    front := s[..at];
  }
}
