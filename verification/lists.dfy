/** The two java.util list operations the location service relies on besides sorting:
    Collections.reverse and List.remove(Object), stated on sequences. */
module Lists {

  /** The elements of `s` in the opposite order. */
  function Reverse<T>(s: seq<T>): (r: seq<T>)
    ensures |r| == |s|
    ensures forall k :: 0 <= k < |s| ==> r[k] == s[|s| - 1 - k]
  {
    if s == [] then [] else [s[|s| - 1]] + Reverse(s[..|s| - 1])
  }

  /** Reversing twice gives back the original order. */
  lemma ReverseTwice<T>(s: seq<T>)
    ensures Reverse(Reverse(s)) == s
  {
    var r := Reverse(Reverse(s));
    assert |r| == |s|;
    forall k | 0 <= k < |s| ensures r[k] == s[k] {
      assert Reverse(s)[|s| - 1 - k] == s[k];
    }
  }

  /** The position of the first element of `s` equal to `x`. */
  function IndexOf<T(==)>(s: seq<T>, x: T): (i: nat)
    requires x in s
    ensures i < |s| && s[i] == x
    ensures x !in s[..i]
  {
    if s[0] == x then 0 else 1 + IndexOf(s[1..], x)
  }

  /** List.remove(Object): drops the first element equal to `x`; a list
      without such an element comes back unchanged. */
  function RemoveFirst<T(==)>(s: seq<T>, x: T): (r: seq<T>)
    ensures x !in s ==> r == s
    ensures x in s ==> r == s[..IndexOf(s, x)] + s[IndexOf(s, x) + 1..]
  {
    if s == [] then []
    else if s[0] == x then s[1..]
    else
      var rest := RemoveFirst(s[1..], x);
      RemovePastHead(s, x, rest);
      [s[0]] + rest
  }

  /** When the head of `s` is not `x`, removing `x` from the tail and putting
      the head back removes the first `x` of `s`. */
  lemma RemovePastHead<T>(s: seq<T>, x: T, rest: seq<T>)
    requires s != [] && s[0] != x
    requires x !in s[1..] ==> rest == s[1..]
    requires x in s[1..] ==> rest == s[1..][..IndexOf(s[1..], x)] + s[1..][IndexOf(s[1..], x) + 1..]
    ensures x !in s ==> [s[0]] + rest == s
    ensures x in s ==> [s[0]] + rest == s[..IndexOf(s, x)] + s[IndexOf(s, x) + 1..]
  {
    var tail := s[1..];
    assert s == [s[0]] + tail;
    assert x in s <==> x in tail;
    if x in tail {
      var i := IndexOf(tail, x);
      assert IndexOf(s, x) == i + 1;
      assert s[..i + 1] == [s[0]] + tail[..i];
      assert s[i + 2..] == tail[i + 1..];
    }
  }

  /** Removal takes away exactly one copy of `x`, if there is one. */
  lemma {:induction false} RemoveFirstCount<T>(s: seq<T>, x: T)
    ensures multiset(RemoveFirst(s, x)) == multiset(s) - multiset{x}
  {
    if x in s {
      var i := IndexOf(s, x);
      var before, after := s[..i], s[i + 1..];
      assert s == before + [x] + after;
      assert multiset(s) == multiset(before) + multiset{x} + multiset(after);
      assert multiset(RemoveFirst(s, x)) == multiset(before) + multiset(after);
    } else {
      assert x !in multiset(s);
    }
  }

  /** Appending `x` and then removing `x` drops the first occurrence: the
      appended copy when `x` was absent, an earlier one otherwise. */
  lemma {:induction false} RemoveAppended<T>(s: seq<T>, x: T)
    ensures RemoveFirst(s + [x], x) == if x in s then RemoveFirst(s, x) + [x] else s
  {
    if s == [] {
      assert s + [x] == [x];
      assert RemoveFirst([x], x) == [];
    } else if s[0] == x {
      assert (s + [x])[0] == x;
      assert RemoveFirst(s + [x], x) == s[1..] + [x];
    } else {
      var t := s + [x];
      assert t[0] == s[0] && t[1..] == s[1..] + [x];
      RemoveAppended(s[1..], x);
      assert x in s <==> x in s[1..];
      if x in s {
        calc {
          RemoveFirst(t, x);
          [s[0]] + RemoveFirst(s[1..] + [x], x);
          [s[0]] + (RemoveFirst(s[1..], x) + [x]);
          ([s[0]] + RemoveFirst(s[1..], x)) + [x];
          RemoveFirst(s, x) + [x];
        }
      } else {
        assert RemoveFirst(t, x) == [s[0]] + s[1..];
      }
    }
  }
}
