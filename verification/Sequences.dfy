/** Facts about sequences that the verifier does not volunteer. */
module Sequences {
  lemma Regroup<T>(a: seq<T>, b: seq<T>, c: seq<T>)
    ensures (a + b) + c == a + (b + c)
  {
  }

  lemma OneFurther<T>(l: seq<T>, k: nat)
    requires k < |l|
    ensures l[..k + 1] == l[..k] + [l[k]] && l[k..][1..] == l[k + 1..]
  {
  }
}
