/** Generic facts about sequences shared by the Python and the C++ parts of
    the model: prefixes, substring search and duplicate-free lists. */
module Seqs {

  predicate IsPrefix<T(==)>(p: seq<T>, s: seq<T>) {
    |p| <= |s| && s[..|p|] == p
  }

  /** `t` starts at position `i` of `s`. */
  predicate OccursAt<T(==)>(s: seq<T>, t: seq<T>, i: int) {
    0 <= i <= |s| - |t| && s[i..i + |t|] == t
  }

  /** `t` occurs somewhere in `s` (Python's `t in s`, C++'s `s.find(t) != npos`). */
  predicate Contains<T(==)>(s: seq<T>, t: seq<T>) {
    exists i | 0 <= i <= |s| - |t| :: OccursAt(s, t, i)
  }

  /** A sequence that lacks one element of `t` cannot contain `t`. */
  lemma MissingElement<T>(s: seq<T>, t: seq<T>, k: nat)
    requires k < |t| && t[k] !in s
    ensures !Contains(s, t)
  {
    forall i | 0 <= i <= |s| - |t| ensures !OccursAt(s, t, i) {
      assert s[i..i + |t|][k] == s[i + k];
      assert s[i + k] in s;
    }
  }

  /** An occurrence of `t` lies within the first `k + |t| - 1` elements or
      starts at position `k` or later. */
  lemma AbsentBothSides<T>(s: seq<T>, t: seq<T>, k: nat)
    requires |t| > 0 && k + |t| - 1 <= |s|
    requires !Contains(s[..k + |t| - 1], t) && !Contains(s[k..], t)
    ensures !Contains(s, t)
  {
    forall i | 0 <= i <= |s| - |t| ensures !OccursAt(s, t, i) {
      if i < k {
        assert s[..k + |t| - 1][i..i + |t|] == s[i..i + |t|];
        assert !OccursAt(s[..k + |t| - 1], t, i);
      } else {
        assert s[k..][i - k..i - k + |t|] == s[i..i + |t|];
        assert !OccursAt(s[k..], t, i - k);
      }
    }
  }

  /** Three pieces whose middle one is one element shorter than `t`: an
      occurrence of `t` in the whole lies in the first two pieces or in the
      last two. */
  lemma AbsentAcross<T>(x: seq<T>, y: seq<T>, z: seq<T>, t: seq<T>)
    requires |y| + 1 == |t|
    requires !Contains(x + y, t) && !Contains(y + z, t)
    ensures !Contains(x + y + z, t)
  {
    var s := x + y + z;
    assert s[..|x| + |t| - 1] == x + y;
    assert s[|x|..] == y + z;
    AbsentBothSides(s, t, |x|);
  }

  /** `AbsentAcross` with each half missing one element of `t`. */
  lemma MissingAcross<T>(x: seq<T>, y: seq<T>, z: seq<T>, t: seq<T>, i: nat, j: nat)
    requires |y| + 1 == |t| && i < |t| && j < |t|
    requires t[i] !in x + y && t[j] !in y + z
    ensures !Contains(x + y + z, t)
  {
    MissingElement(x + y, t, i);
    MissingElement(y + z, t, j);
    AbsentAcross(x, y, z, t);
  }

  /** An occurrence in `b` is one in `a + b`, shifted by `|a|`. */
  lemma OccursShift<T>(a: seq<T>, b: seq<T>, t: seq<T>, off: int)
    requires OccursAt(b, t, off)
    ensures OccursAt(a + b, t, |a| + off)
  {
    assert (a + b)[|a| + off..|a| + off + |t|] == b[off..off + |t|];
  }

  predicate Distinct<T(==)>(s: seq<T>) {
    forall i, j :: 0 <= i < j < |s| ==> s[i] != s[j]
  }

  /** Python's `list(some_set)`: every element once, in an order the
      language does not fix. */
  method SetToSeq<T(==)>(s: set<T>) returns (xs: seq<T>)
    ensures Distinct(xs)
    ensures forall x :: x in xs <==> x in s
    ensures |xs| == |s|
  {
    xs := [];
    var rest := s;
    while rest != {}
      invariant rest <= s
      invariant Distinct(xs)
      invariant forall x :: x in xs <==> x in s && x !in rest
      invariant |xs| + |rest| == |s|
      decreases |rest|
    {
      var x :| x in rest;
      xs := xs + [x];
      rest := rest - {x};
    }
  }
}
