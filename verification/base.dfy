/** Small shared vocabulary: an optional value, used for JavaScript's
    `undefined` fields and for operations that may fail. */
module Base {

  datatype Option<+T> = None | Some(value: T) {

    /** The wrapped value, or `default` when absent. */
    function GetOr(default: T): T {
      match this
      case Some(v) => v
      case None => default
    }
  }

  /** Ascending, hence duplicate-free, sequence of ids. */
  predicate Increasing(s: seq<nat>) {
    forall i, j :: 0 <= i < j < |s| ==> s[i] < s[j]
  }

  /** Appending an element above every element keeps a sequence ascending. */
  lemma IncreasingAppend(s: seq<nat>, x: nat)
    requires Increasing(s)
    requires forall k :: k in s ==> k < x
    ensures Increasing(s + [x])
  {
    var t := s + [x];
    forall i, j | 0 <= i < j < |t|
      ensures t[i] < t[j]
    {
      assert t[i] == s[i];
      if j == |s| {
        assert s[i] in s;
      } else {
        assert t[j] == s[j];
      }
    }
  }

  /** Concatenation regroups; stated once so that long proofs can cite it
      without re-deriving it in their own, larger, context. */
  lemma AppendAssoc<T>(a: seq<T>, b: seq<T>, c: seq<T>)
    ensures (a + b) + c == a + (b + c)
  {
  }

  /** The position of a member of a sequence (its first occurrence). */
  function IndexOf<T(==)>(s: seq<T>, x: T): (i: nat)
    requires x in s
    ensures i < |s| && s[i] == x
    ensures forall j :: 0 <= j < i ==> s[j] != x
  {
    if s[0] == x then 0 else 1 + IndexOf(s[1..], x)
  }

  /** Two ascending sequences holding the same elements are equal: an
      ascending sequence is determined by its set of elements. */
  lemma {:induction false} IncreasingUnique(a: seq<nat>, b: seq<nat>)
    requires Increasing(a) && Increasing(b)
    requires forall x :: x in a <==> x in b
    ensures a == b
    decreases |a|
  {
    if b != [] {
      assert b[0] in b;
    }
    if a != [] {
      assert a[0] in b;
      assert b[0] in a;
      assert b[0] <= a[0] by {
        var j := IndexOf(b, a[0]);
        assert b[0] <= b[j];
      }
      assert a[0] <= b[0] by {
        var k := IndexOf(a, b[0]);
        assert a[0] <= a[k];
      }
      forall x
        ensures x in a[1..] <==> x in b[1..]
      {
        assert x in a[1..] ==> a[0] < x by {
          if x in a[1..] {
            var j :| 1 <= j < |a| && a[j] == x;
          }
        }
        assert x in b[1..] ==> b[0] < x by {
          if x in b[1..] {
            var j :| 1 <= j < |b| && b[j] == x;
          }
        }
        assert x in a[1..] <==> x in a && x != a[0];
        assert x in b[1..] <==> x in b && x != b[0];
      }
      IncreasingUnique(a[1..], b[1..]);
      assert a == [a[0]] + a[1..];
      assert b == [b[0]] + b[1..];
    }
  }
}
