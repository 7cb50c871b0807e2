/** What it is to keep some of a sequence, in order. */
module Sequences {

  ghost predicate Rising(at: seq<nat>) {
    forall i, j :: 0 <= i < j < |at| ==> at[i] < at[j]
  }

  /** Each element of `out` is the element of `s` at that place. */
  ghost predicate From<T>(s: seq<T>, out: seq<T>, at: seq<nat>) {
    |at| == |out| && forall i :: 0 <= i < |at| ==> at[i] < |s| && out[i] == s[at[i]]
  }

  /** No place where the test holds is missing. */
  ghost predicate Complete<T>(s: seq<T>, p: T -> bool, at: seq<nat>) {
    forall k :: 0 <= k < |s| && p(s[k]) ==> k in at
  }

  ghost predicate Selects<T>(s: seq<T>, out: seq<T>, p: T -> bool, at: seq<nat>) {
    Rising(at) && From(s, out, at) && Complete(s, p, at) && forall x <- out :: p(x)
  }

  /** `out` is the elements of `s` that the test holds of, in order and as often. */
  ghost predicate Selected<T>(s: seq<T>, out: seq<T>, p: T -> bool) {
    exists at :: Selects(s, out, p, at)
  }

  lemma SelectsNothing<T>(p: T -> bool)
    ensures Selected<T>([], [], p)
  {
    assert Selects<T>([], [], p, []);
  }

  lemma SelectsEverything<T>(s: seq<T>, p: T -> bool)
    requires forall x <- s :: p(x)
    ensures Selected(s, s, p)
  {
    var at := Places(|s|);
    forall k | 0 <= k < |s| ensures k in at {
      assert at[k] == k;
    }
    SelectsBy(s, s, p, at);
  }

  function Places(n: nat): (at: seq<nat>)
    ensures |at| == n && forall k :: 0 <= k < n ==> at[k] == k
  {
    seq(n, k => k)
  }

  lemma CompleteMore<T>(s: seq<T>, p: T -> bool, at: seq<nat>, last: T)
    requires Complete(s, p, at)
    ensures p(last) ==> Complete(s + [last], p, at + [|s|])
    ensures !p(last) ==> Complete(s + [last], p, at)
  {
    forall k | 0 <= k < |s| + 1 && p((s + [last])[k]) ensures if p(last) then k in at + [|s|] else k in at {
      if k < |s| {
        assert k in at;
      }
    }
  }

  lemma FromMore<T>(s: seq<T>, out: seq<T>, at: seq<nat>, last: T)
    requires From(s, out, at) && Rising(at)
    ensures From(s + [last], out, at)
    ensures From(s + [last], out + [last], at + [|s|]) && Rising(at + [|s|])
  {
  }

  lemma SelectsBy<T>(s: seq<T>, out: seq<T>, p: T -> bool, at: seq<nat>)
    requires Rising(at) && From(s, out, at) && Complete(s, p, at) && forall x <- out :: p(x)
    ensures Selected(s, out, p)
  {
    hide Rising, From, Complete;
    assert Selects(s, out, p, at);
  }

  /** One more element is kept exactly when the test holds of it. */
  lemma SelectsMore<T>(s: seq<T>, out: seq<T>, p: T -> bool, last: T)
    requires Selected(s, out, p)
    ensures Selected(s + [last], if p(last) then out + [last] else out, p)
  {
    var at: seq<nat> :| Selects(s, out, p, at);
    CompleteMore(s, p, at, last);
    FromMore(s, out, at, last);
    if p(last) {
      SelectsBy(s + [last], out + [last], p, at + [|s|]);
    } else {
      SelectsBy(s + [last], out, p, at);
    }
  }

  lemma SelectsMembers<T>(s: seq<T>, out: seq<T>, p: T -> bool)
    requires Selected(s, out, p)
    ensures forall x :: x in out <==> x in s && p(x)
  {
    var at: seq<nat> :| Selects(s, out, p, at);
    forall x | x in s && p(x) ensures x in out {
      var k :| 0 <= k < |s| && s[k] == x;
      assert k in at;
      var i :| 0 <= i < |at| && at[i] == k;
      assert out[i] == x;
    }
  }

  /** The same test on the same sequence keeps the same. */
  lemma SelectsSame<T>(s: seq<T>, out: seq<T>, p: T -> bool, q: T -> bool)
    requires Selected(s, out, p) && forall x <- s :: p(x) <==> q(x)
    ensures Selected(s, out, q)
  {
    SelectsMembers(s, out, p);
    var at: seq<nat> :| Selects(s, out, p, at);
    hide Rising, From;
    assert Complete(s, q, at);
    assert Selects(s, out, q, at);
  }

  function Both<T>(p: T -> bool, q: T -> bool): T -> bool {
    x => p(x) && q(x)
  }

  function Through(a: seq<nat>, b: seq<nat>): seq<nat>
    requires forall i <- b :: i < |a|
  {
    seq(|b|, i requires 0 <= i < |b| => assert b[i] in b; a[b[i]])
  }

  lemma PlacesThrough(a: seq<nat>, b: seq<nat>)
    requires Rising(a) && Rising(b) && forall i <- b :: i < |a|
    ensures Rising(Through(a, b))
  {
    forall i, j | 0 <= i < j < |b| ensures Through(a, b)[i] < Through(a, b)[j] {
      assert b[i] in b && b[j] in b;
      assert b[i] < b[j];
    }
  }

  lemma FromThrough<T>(s: seq<T>, mid: seq<T>, out: seq<T>, a: seq<nat>, b: seq<nat>)
    requires From(s, mid, a) && From(mid, out, b)
    ensures forall i <- b :: i < |a|
    ensures From(s, out, Through(a, b))
  {
  }

  lemma CompleteThrough<T>(s: seq<T>, mid: seq<T>, a: seq<nat>, b: seq<nat>, p: T -> bool, q: T -> bool)
    requires From(s, mid, a) && Complete(s, p, a) && Complete(mid, q, b) && forall i <- b :: i < |a|
    ensures Complete(s, Both(p, q), Through(a, b))
  {
    forall k | 0 <= k < |s| && p(s[k]) && q(s[k]) ensures k in Through(a, b) {
      assert k in a;
      var i :| 0 <= i < |a| && a[i] == k;
      assert mid[i] == s[k];
      assert i in b;
      var j :| 0 <= j < |b| && b[j] == i;
      assert Through(a, b)[j] == k;
    }
  }

  /** Keeping twice is keeping what both tests hold of. */
  lemma SelectsTwice<T>(s: seq<T>, mid: seq<T>, out: seq<T>, p: T -> bool, q: T -> bool)
    requires Selected(s, mid, p) && Selected(mid, out, q)
    ensures Selected(s, out, Both(p, q))
  {
    SelectsMembers(s, mid, p);
    SelectsMembers(mid, out, q);
    var a: seq<nat> :| Selects(s, mid, p, a);
    var b: seq<nat> :| Selects(mid, out, q, b);
    FromThrough(s, mid, out, a, b);
    PlacesThrough(a, b);
    CompleteThrough(s, mid, a, b, p, q);
    hide Rising, From, Complete, Through;
    assert Selects(s, out, Both(p, q), Through(a, b));
  }

  /** Everything is kept when the test holds of everything. */
  lemma SelectsAll<T>(s: seq<T>, out: seq<T>, p: T -> bool)
    requires Selected(s, out, p) && forall x <- s :: p(x)
    ensures out == s
  {
    var at: seq<nat> :| Selects(s, out, p, at);
    forall k | 0 <= k < |s| ensures k in at {
      assert p(s[k]);
    }
    CountsUp(at, |s|);
  }

  lemma {:induction false} CountsUp(at: seq<nat>, n: nat)
    requires Rising(at) && (forall i <- at :: i < n) && forall k :: 0 <= k < n ==> k in at
    ensures |at| == n && forall i :: 0 <= i < n ==> at[i] == i
    decreases n
  {
    if at == [] {
      assert n > 0 ==> 0 in at;
    } else {
      var last := |at| - 1;
      assert at[last] in at && n - 1 in at;
      var i :| 0 <= i < |at| && at[i] == n - 1;
      forall k | 0 <= k < n - 1 ensures k in at[..last] {
        assert k in at;
        var j :| 0 <= j < |at| && at[j] == k;
        assert at[..last][j] == k;
      }
      forall j | 0 <= j < last ensures at[..last][j] < n - 1 {
        assert at[j] < at[last];
      }
      CountsUp(at[..last], n - 1);
    }
  }
}
