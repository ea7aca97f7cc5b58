/** Facts about sequences that several components rely on. */
module Sequences {

  /** All elements of `xss`, in order. */
  function Flatten<T>(xss: seq<seq<T>>): seq<T> {
    if xss == [] then [] else xss[0] + Flatten(xss[1..])
  }

  lemma {:induction false} FlattenConcat<T>(a: seq<seq<T>>, b: seq<seq<T>>)
    ensures Flatten(a + b) == Flatten(a) + Flatten(b)
  {
    if a == [] {
      assert a + b == b;
    } else {
      assert (a + b)[1..] == a[1..] + b;
      FlattenConcat(a[1..], b);
    }
  }

  /** `a` arises from `b` by deleting elements, keeping the order of the others. */
  ghost predicate Subsequence<T>(a: seq<T>, b: seq<T>)
    decreases |b|
  {
    if a == [] then true
    else if b == [] then false
    else
      var n, m := |a| - 1, |b| - 1;
      (a[n] == b[m] && Subsequence(a[..n], b[..m])) || Subsequence(a, b[..m])
  }

  /** `a` plus one element against `b` plus the same one, and against `b` plus any other. */
  lemma SubsequenceSnoc<T>(a: seq<T>, b: seq<T>, x: T)
    requires Subsequence(a, b)
    ensures Subsequence(a + [x], b + [x])
    ensures Subsequence(a, b + [x])
  {
    assert (a + [x])[..|a|] == a;
    assert (b + [x])[..|b|] == b;
  }

  /** One element in front of both, or of the longer one only. */
  lemma {:induction false} SubsequenceCons<T>(a: seq<T>, b: seq<T>, x: T)
    requires Subsequence(a, b)
    ensures Subsequence([x] + a, [x] + b)
    ensures Subsequence(a, [x] + b)
    decreases |b|
  {
    if b == [] {
      assert [x] + b == [x] && [x] + a == [x];
      assert [x][..0] == [];
    } else {
      var m := |b| - 1;
      assert ([x] + b)[..m + 1] == [x] + b[..m];
      if a == [] {
        SubsequenceCons([], b[..m], x);
        assert [x] + [] == [x];
      } else {
        var n := |a| - 1;
        assert ([x] + a)[..n + 1] == [x] + a[..n];
        if Subsequence(a, b[..m]) {
          SubsequenceCons(a, b[..m], x);
        } else {
          SubsequenceCons(a[..n], b[..m], x);
        }
      }
    }
  }

  /** Deleting an element of a subsequence leaves a subsequence. */
  lemma {:induction false} SubsequenceDrop<T>(front: seq<T>, x: T, back: seq<T>, b: seq<T>)
    requires Subsequence(front + [x] + back, b)
    ensures Subsequence(front + back, b)
    decreases |b|
  {
    var a := front + [x] + back;
    if front + back != [] {
      var n, m := |a| - 1, |b| - 1;
      if Subsequence(a, b[..m]) {
        SubsequenceDrop(front, x, back, b[..m]);
      } else if back == [] {
        assert a[..n] == front == front + back;
      } else {
        var k := |back| - 1;
        assert a[..n] == front + [x] + back[..k];
        SubsequenceDrop(front, x, back[..k], b[..m]);
        assert (front + back)[..n - 1] == front + back[..k];
      }
    }
  }

  /** Deleting a stretch of a subsequence leaves a subsequence. */
  lemma {:induction false} SubsequenceCut<T>(front: seq<T>, cut: seq<T>, back: seq<T>, b: seq<T>)
    requires Subsequence(front + cut + back, b)
    ensures Subsequence(front + back, b)
    decreases |cut|
  {
    if cut == [] {
      assert front + cut + back == front + back;
    } else {
      var n := |cut| - 1;
      assert front + cut + back == (front + cut[..n]) + [cut[n]] + back;
      SubsequenceDrop(front + cut[..n], cut[n], back, b);
      SubsequenceCut(front, cut[..n], back, b);
    }
  }

  /** A prefix of a subsequence is one. */
  lemma SubsequencePrefix<T>(a: seq<T>, b: seq<T>, c: seq<T>)
    requires Subsequence(a + b, c)
    ensures Subsequence(a, c)
  {
    assert a + b + [] == a + b && a + [] == a;
    SubsequenceCut(a, b, [], c);
  }

  /** Joined to the same front, two sequences differ as they did. */
  lemma SameTail<T>(front: seq<T>, a: seq<T>, b: seq<T>)
    ensures front + a == front + b <==> a == b
  {
    assert (front + a)[|front|..] == a;
    assert (front + b)[|front|..] == b;
  }

  /** Strictly increasing positions of `b` at which `a` is read off. */
  ghost predicate Embeds<T>(f: seq<nat>, a: seq<T>, b: seq<T>) {
    && |f| == |a|
    && (forall i :: 0 <= i < |f| ==> f[i] < |b| && a[i] == b[f[i]])
    && (forall i, j :: 0 <= i < j < |f| ==> f[i] < f[j])
  }

  /** What the recursive definition means: each element of `a` has a place of its own in `b`. */
  lemma {:induction false} SubsequenceEmbeds<T>(a: seq<T>, b: seq<T>) returns (f: seq<nat>)
    requires Subsequence(a, b)
    ensures Embeds(f, a, b)
    decreases |b|
  {
    if a == [] {
      f := [];
    } else {
      var n, m := |a| - 1, |b| - 1;
      if Subsequence(a, b[..m]) {
        f := SubsequenceEmbeds(a, b[..m]);
      } else {
        f := SubsequenceEmbeds(a[..n], b[..m]);
        f := f + [m];
      }
    }
  }

  lemma SubsequenceMember<T>(a: seq<T>, b: seq<T>, x: T)
    requires Subsequence(a, b) && x in a
    ensures x in b
  {
    var f := SubsequenceEmbeds(a, b);
    var i :| 0 <= i < |a| && a[i] == x;
    assert b[f[i]] == x;
  }
}
