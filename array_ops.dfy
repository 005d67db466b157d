/**
 * The JavaScript array operations the relationship state is edited with,
 * on sequences: `indexOf` by identity, `splice(idx, 0, x)` and
 * `splice(i, 1)`, together with the two views of a sequence that the
 * membership sets mirror (its elements, and having no duplicates).
 */
module ArrayOps {

  /** No element occurs twice. */
  predicate NoDups<T(==)>(s: seq<T>) {
    forall i, j :: 0 <= i < j < |s| ==> s[i] != s[j]
  }

  /** The set of elements of a sequence. */
  function Elems<T(==)>(s: seq<T>): set<T> {
    set x | x in s
  }

  /** `Array.prototype.indexOf`: the first position that holds `x`, or -1 when there is none. */
  function IndexOf<T(==)>(s: seq<T>, x: T): (i: int)
    ensures -1 <= i < |s|
    ensures i == -1 <==> x !in s
    ensures 0 <= i ==> s[i] == x && x !in s[..i]
  {
    if |s| == 0 then -1
    else if s[0] == x then 0
    else
      var j := IndexOf(s[1..], x);
      if j == -1 then -1
      else
        assert s[..j + 1] == [s[0]] + s[1..][..j];
        j + 1
  }

  /** Where `splice(idx, 0, x)` puts `x` in an array of length `n`: an index past the end means the end. */
  function Clamp(idx: nat, n: nat): nat {
    if idx < n then idx else n
  }

  /** `splice(idx, 0, x)` on a non-negative index: `x` is inserted at `idx`, or appended when `idx` is past the end. */
  function InsertAt<T>(s: seq<T>, idx: nat, x: T): (r: seq<T>)
    ensures |r| == |s| + 1
    ensures r[Clamp(idx, |s|)] == x
    ensures forall j :: 0 <= j < Clamp(idx, |s|) ==> r[j] == s[j]
    ensures forall j :: Clamp(idx, |s|) <= j < |s| ==> r[j + 1] == s[j]
  {
    var k := Clamp(idx, |s|);
    s[..k] + [x] + s[k..]
  }

  /** `splice(i, 1)`: the element at `i` is removed, and nothing happens when `i` is past the end. */
  function RemoveAt<T>(s: seq<T>, i: nat): (r: seq<T>)
    ensures i < |s| ==> |r| == |s| - 1
    ensures |s| <= i ==> r == s
  {
    if i < |s| then s[..i] + s[i + 1..] else s
  }

  /** `splice(i, 1)` keeps the elements before `i` in place and moves those after it one position down. */
  lemma RemoveAtShifts<T>(s: seq<T>, i: nat)
    requires i < |s|
    ensures forall j :: 0 <= j < i ==> RemoveAt(s, i)[j] == s[j]
    ensures forall j :: i < j < |s| ==> RemoveAt(s, i)[j - 1] == s[j]
  {
  }

  /** `splice(indexOf(x), 1)` guarded by `indexOf(x) !== -1`: the first occurrence of `x` is removed, if any. */
  function RemoveFirst<T(==)>(s: seq<T>, x: T): (r: seq<T>)
    ensures x !in s ==> r == s
    ensures x in s ==> |r| == |s| - 1
  {
    var i := IndexOf(s, x);
    if i == -1 then s else RemoveAt(s, i)
  }

  /** Inserting at or past the end appends. */
  lemma InsertAtEnd<T>(s: seq<T>, idx: nat, x: T)
    requires |s| <= idx
    ensures InsertAt(s, idx, x) == s + [x]
  {
    assert s[..|s|] == s;
  }

  /** In a sequence without duplicates, removing the position that holds `x` is removing the first occurrence of `x`. */
  lemma RemoveAtIsRemoveFirst<T>(s: seq<T>, i: nat, x: T)
    requires NoDups(s) && i < |s| && s[i] == x
    ensures RemoveAt(s, i) == RemoveFirst(s, x)
  {
    assert IndexOf(s, x) == i;
  }

  /** A sequence without duplicates has as many distinct elements as positions. */
  lemma {:induction false} DistinctCard<T>(s: seq<T>)
    requires NoDups(s)
    ensures |Elems(s)| == |s|
  {
    if s != [] {
      var t := s[1..];
      assert NoDups(t);
      DistinctCard(t);
      assert Elems(s) == {s[0]} + Elems(t);
      assert s[0] !in Elems(t);
    }
  }

  /** Growing a prefix by one position adds that position's element. */
  lemma ElemsPrefixStep<T>(s: seq<T>, j: nat)
    requires j < |s|
    ensures Elems(s[..j + 1]) == Elems(s[..j]) + {s[j]}
  {
    assert s[..j + 1] == s[..j] + [s[j]];
  }

  /** Inserting adds exactly the inserted element to the set of elements, whether or not it was already there. */
  lemma InsertAtElems<T>(s: seq<T>, idx: nat, x: T)
    ensures Elems(InsertAt(s, idx, x)) == Elems(s) + {x}
  {
    var k := Clamp(idx, |s|);
    assert InsertAt(s, idx, x) == s[..k] + [x] + s[k..];
    assert s == s[..k] + s[k..];
  }

  /**
   * One step of a removal loop that walks positions `n - 1` down to `0` and
   * removes each with `splice(i, 1)`: before the step at `i`, the positions
   * below `i + 1` and those from `n` on remain (`n` clamped to the length);
   * after it, those below `i` and those from `n` on.
   */
  lemma RemoveDownStep<T>(s: seq<T>, n: nat, i: nat)
    requires i < n
    ensures RemoveAt(s[..Clamp(i + 1, |s|)] + s[Clamp(n, |s|)..], i) == s[..Clamp(i, |s|)] + s[Clamp(n, |s|)..]
  {
    var m := Clamp(n, |s|);
    if i < |s| {
      var r := s[..i + 1] + s[m..];
      assert r[..i] == s[..i];
      assert r[i + 1..] == s[m..];
    } else {
      assert s[m..] == [];
      assert s[..|s|] + [] == s;
    }
  }

  /** Inserting an element that is absent keeps a sequence free of duplicates and adds exactly that element. */
  lemma InsertFresh<T>(s: seq<T>, idx: nat, x: T)
    requires NoDups(s) && x !in s
    ensures NoDups(InsertAt(s, idx, x))
    ensures Elems(InsertAt(s, idx, x)) == Elems(s) + {x}
  {
    var k := Clamp(idx, |s|);
    var r := InsertAt(s, idx, x);
    assert r == s[..k] + [x] + s[k..];
    forall i, j | 0 <= i < j < |r| ensures r[i] != r[j] {
      if j < k {
      } else if j == k {
        assert r[i] == s[i];
      } else if i < k {
        assert r[j] == s[j - 1];
      } else if i == k {
        assert r[j] == s[j - 1];
      } else {
        assert r[i] == s[i - 1] && r[j] == s[j - 1];
      }
    }
  }

  /** Removing the position of a present element keeps a sequence free of duplicates and removes exactly that element. */
  lemma RemoveMember<T>(s: seq<T>, i: nat)
    requires NoDups(s) && i < |s|
    ensures NoDups(RemoveAt(s, i))
    ensures Elems(RemoveAt(s, i)) == Elems(s) - {s[i]}
  {
    var r := RemoveAt(s, i);
    assert r == s[..i] + s[i + 1..];
    forall y | y in Elems(s) - {s[i]} ensures y in Elems(r) {
      var j :| 0 <= j < |s| && s[j] == y;
      if j < i { assert r[j] == y; } else { assert r[j - 1] == y; }
    }
  }

  /** Removing the first occurrence of `x` from a sequence without duplicates removes every trace of it. */
  lemma RemoveFirstDistinct<T>(s: seq<T>, x: T)
    requires NoDups(s)
    ensures NoDups(RemoveFirst(s, x))
    ensures Elems(RemoveFirst(s, x)) == Elems(s) - {x}
  {
    if x in s {
      RemoveMember(s, IndexOf(s, x));
    }
  }

  /** An element inserted where it was absent is found by `indexOf` exactly where it was put. */
  lemma IndexOfInserted<T>(s: seq<T>, idx: nat, x: T)
    requires x !in s
    ensures IndexOf(InsertAt(s, idx, x), x) == Clamp(idx, |s|)
  {
  }

  /** Removing what was just inserted gives back the original sequence: insertion shifts and keeps every other element in order. */
  lemma RemoveInserted<T>(s: seq<T>, idx: nat, x: T)
    ensures RemoveAt(InsertAt(s, idx, x), Clamp(idx, |s|)) == s
  {
    var k := Clamp(idx, |s|);
    assert InsertAt(s, idx, x) == s[..k] + [x] + s[k..];
  }

  /** Removing the first occurrence of an element inserted where it was absent undoes the insertion. */
  lemma RemoveFirstUndoesInsert<T>(s: seq<T>, idx: nat, x: T)
    requires x !in s
    ensures RemoveFirst(InsertAt(s, idx, x), x) == s
  {
    IndexOfInserted(s, idx, x);
    RemoveInserted(s, idx, x);
  }
}
