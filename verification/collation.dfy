/** Python's ordering of strings (`a < b`): lexicographic by code point, a
    proper prefix coming first. `groupby` emits its groups in this order. */
module Collation {

  predicate Less(a: string, b: string)
    decreases |a|
  {
    if |a| == 0 then |b| > 0
    else if |b| == 0 then false
    else if a[0] != b[0] then a[0] < b[0]
    else Less(a[1..], b[1..])
  }

  lemma {:induction false} LessIrreflexive(a: string)
    ensures !Less(a, a)
    decreases |a|
  {
    if |a| > 0 {
      LessIrreflexive(a[1..]);
    }
  }

  lemma {:induction false} LessTransitive(a: string, b: string, c: string)
    requires Less(a, b) && Less(b, c)
    ensures Less(a, c)
    decreases |a|
  {
    if |a| > 0 && a[0] == b[0] && b[0] == c[0] {
      LessTransitive(a[1..], b[1..], c[1..]);
    }
  }

  lemma {:induction false} LessTotal(a: string, b: string)
    ensures a == b || Less(a, b) || Less(b, a)
    decreases |a|
  {
    if |a| > 0 && |b| > 0 && a[0] == b[0] {
      LessTotal(a[1..], b[1..]);
      if a[1..] == b[1..] {
        assert a == [a[0]] + a[1..] && b == [b[0]] + b[1..];
      }
    }
  }

  predicate StrictlyAscending(ks: seq<string>)
  {
    forall i, j :: 0 <= i < j < |ks| ==> Less(ks[i], ks[j])
  }

  /** Adds `k` to an ascending list of distinct keys, keeping it ascending
      and adding nothing when `k` is already there. */
  function InsertKey(k: string, ks: seq<string>): (r: seq<string>)
    requires StrictlyAscending(ks)
    ensures StrictlyAscending(r)
    ensures forall x :: x in r <==> x == k || x in ks
  {
    if |ks| == 0 then [k]
    else if k == ks[0] then ks
    else if Less(k, ks[0]) then
      forall j | 0 <= j < |ks|
        ensures Less(k, ks[j])
      {
        if j > 0 {
          LessTransitive(k, ks[0], ks[j]);
        }
      }
      [k] + ks
    else
      LessTotal(k, ks[0]);
      var rest := InsertKey(k, ks[1..]);
      assert forall x :: x in ks[1..] ==> Less(ks[0], x);
      [ks[0]] + rest
  }

  /** Ascending keys are distinct. */
  lemma AscendingIsDistinct(ks: seq<string>, i: nat, j: nat)
    requires StrictlyAscending(ks)
    requires i < j < |ks|
    ensures ks[i] != ks[j]
  {
    LessIrreflexive(ks[i]);
  }
}
