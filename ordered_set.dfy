/**
 * The contract's `SetMapper` storage as a duplicate-free sequence listing the
 * elements in the mapper's iteration order: an insertion is linked at the
 * end, a removal unlinks the entry and leaves the others in their order.
 */
module OrderedSet {

  /** No element is stored twice. Every set mapper keeps this. */
  predicate NoDup<T(==)>(s: seq<T>) {
    forall i, j | 0 <= i < j < |s| :: s[i] != s[j]
  }

  /** The set the mapper stands for. */
  function Elems<T>(s: seq<T>): set<T> {
    set x | x in s
  }

  /** `SetMapper::insert`: a new element goes after all present ones; a present one changes nothing. */
  function Insert<T(==)>(s: seq<T>, x: T): (r: seq<T>)
    ensures Elems(r) == Elems(s) + {x}
    ensures x in s ==> r == s
    ensures x !in s ==> |r| == |s| + 1 && r[..|s|] == s && r[|s|] == x
    ensures NoDup(s) ==> NoDup(r)
  {
    if x in s then s else s + [x]
  }

  /** The position of the first entry holding `x`: where the mapper's entry for `x` sits. */
  function IndexOf<T(==)>(s: seq<T>, x: T): (k: nat)
    requires x in s
    ensures k < |s| && s[k] == x && x !in s[..k]
  {
    if s[0] == x then 0 else 1 + IndexOf(s[1..], x)
  }

  /**
   * `SetMapper::remove`: the entry holding `x` is unlinked and the remaining
   * elements keep their relative order; an absent element changes nothing.
   */
  function Remove<T(==)>(s: seq<T>, x: T): (r: seq<T>)
    ensures x !in s ==> r == s
    ensures x in s ==> r == s[..IndexOf(s, x)] + s[IndexOf(s, x) + 1..]
    ensures NoDup(s) ==> NoDup(r) && Elems(r) == Elems(s) - {x}
    ensures NoDup(s) && x in s ==> |r| == |s| - 1
  {
    if x !in s then s
    else
      var k := IndexOf(s, x);
      var r := s[..k] + s[k + 1..];
      assert forall i | 0 <= i < |r| :: r[i] == s[if i < k then i else i + 1];
      assert NoDup(s) ==> x !in r;
      assert Elems(s) == Elems(r) + {x} by {
        assert s == s[..k] + [x] + s[k + 1..];
      }
      r
  }

  /** Adding an absent element and then removing it gives back the same mapper contents, in the same order. */
  lemma {:induction false} InsertThenRemove<T>(s: seq<T>, x: T)
    requires x !in s
    ensures Remove(Insert(s, x), x) == s
  {
    var t := s + [x];
    assert x in t[..|s|] ==> x in s by {
      assert t[..|s|] == s;
    }
    var k := IndexOf(t, x);
    assert k == |s|;
    assert t[..k] == s;
  }

  /** A duplicate-free sequence has as many positions as its set has elements: `len()` is the set's size. */
  lemma {:induction false} NoDupCard<T>(s: seq<T>)
    requires NoDup(s)
    ensures |Elems(s)| == |s|
  {
    if s != [] {
      assert NoDup(s[1..]) by {
        forall i, j | 0 <= i < j < |s[1..]| ensures s[1..][i] != s[1..][j] {
          assert s[1..][i] == s[i + 1] && s[1..][j] == s[j + 1];
        }
      }
      NoDupCard(s[1..]);
      assert s[0] !in s[1..] by {
        forall i | 0 <= i < |s[1..]| ensures s[1..][i] != s[0] {
          assert s[1..][i] == s[i + 1];
        }
      }
      assert Elems(s) == Elems(s[1..]) + {s[0]} by {
        assert s == [s[0]] + s[1..];
      }
    }
  }

  /**
   * In a duplicate-free mapper the positions `[0, len)` and the distinct
   * elements correspond one to one: there are as many of each, and every
   * element sits at exactly one position. A draw of a position in
   * `[0, len)` is therefore a draw of one element, each by one position.
   */
  lemma {:induction false} PositionsMatchElements<T>(s: seq<T>)
    requires NoDup(s)
    ensures |Elems(s)| == |s|
    ensures forall i | 0 <= i < |s| :: IndexOf(s, s[i]) == i
  {
    NoDupCard(s);
    forall i | 0 <= i < |s| ensures IndexOf(s, s[i]) == i {
      var k := IndexOf(s, s[i]);
      assert s[k] == s[i];
    }
  }
}
