/**
 * The two list computations behind reconciliation of a to-many relationship:
 * the merge `flushCanonical` gives the local list (server order, then the
 * new local records the server does not know), and the list that
 * `computeChanges` leaves on the canonical side (the target list with later
 * duplicates dropped).
 */
module Reconcile {
  import opened ArrayOps
  import opened Records

  /**
   * The filter of `flushCanonical`: the records of `current`, in their order,
   * that are new and that `indexOf` does not find in `canonical`.
   */
  function NewLocals(current: seq<RecordRef>, canonical: seq<RecordRef>): (r: seq<RecordRef>)
    ensures |r| <= |current|
    ensures forall x :: x in r <==> x in current && x.isNew && x !in canonical
  {
    if current == [] then []
    else
      var rest := NewLocals(current[1..], canonical);
      if current[0].isNew && IndexOf(canonical, current[0]) == -1 then [current[0]] + rest else rest
  }

  /** The list `flushCanonical` makes current: the canonical list followed by the new local records it lacks. */
  function Merge(canonical: seq<RecordRef>, current: seq<RecordRef>): (r: seq<RecordRef>)
    ensures |canonical| <= |r| && r[..|canonical|] == canonical
    ensures forall x :: x in r <==> x in canonical || (x in current && x.isNew)
  {
    canonical + NewLocals(current, canonical)
  }

  /** The filter works element by element, so it keeps the relative order of what it keeps: it distributes over concatenation. */
  lemma {:induction false} NewLocalsAppend(a: seq<RecordRef>, b: seq<RecordRef>, canonical: seq<RecordRef>)
    ensures NewLocals(a + b, canonical) == NewLocals(a, canonical) + NewLocals(b, canonical)
  {
    if a != [] {
      assert (a + b)[1..] == a[1..] + b;
      NewLocalsAppend(a[1..], b, canonical);
    } else {
      assert a + b == b;
    }
  }

  /** Filtering a list without duplicates yields a list without duplicates. */
  lemma {:induction false} NewLocalsDistinct(current: seq<RecordRef>, canonical: seq<RecordRef>)
    requires NoDups(current)
    ensures NoDups(NewLocals(current, canonical))
  {
    if current != [] {
      var t := current[1..];
      assert NoDups(t);
      NewLocalsDistinct(t, canonical);
      assert current[0] !in t;
    }
  }

  /** A list of new records none of which is canonical passes the filter unchanged. */
  lemma {:induction false} NewLocalsKeepsAll(s: seq<RecordRef>, canonical: seq<RecordRef>)
    requires forall x :: x in s ==> x.isNew && x !in canonical
    ensures NewLocals(s, canonical) == s
  {
    if s != [] {
      assert s[0] in s;
      NewLocalsKeepsAll(s[1..], canonical);
    }
  }

  /** A list of canonical records passes none of its elements through the filter. */
  lemma {:induction false} NewLocalsDropsCanonical(s: seq<RecordRef>, canonical: seq<RecordRef>)
    requires forall x :: x in s ==> x in canonical
    ensures NewLocals(s, canonical) == []
  {
    if s != [] {
      assert s[0] in s;
      NewLocalsDropsCanonical(s[1..], canonical);
    }
  }

  /** The merge of two lists without duplicates has no duplicates. */
  lemma MergeDistinct(canonical: seq<RecordRef>, current: seq<RecordRef>)
    requires NoDups(canonical) && NoDups(current)
    ensures NoDups(Merge(canonical, current))
  {
    var n := NewLocals(current, canonical);
    NewLocalsDistinct(current, canonical);
    var r := canonical + n;
    forall i, j | 0 <= i < j < |r| ensures r[i] != r[j] {
      if j >= |canonical| {
        assert r[j] == n[j - |canonical|];
        if i < |canonical| {
          assert r[i] in canonical;
        } else {
          assert r[i] == n[i - |canonical|];
        }
      }
    }
  }

  /** Flushing twice gives the same list as flushing once, as long as the canonical list has not changed. */
  lemma MergeIdempotent(canonical: seq<RecordRef>, current: seq<RecordRef>)
    ensures Merge(canonical, Merge(canonical, current)) == Merge(canonical, current)
  {
    var n := NewLocals(current, canonical);
    var m := canonical + n;
    calc {
      NewLocals(m, canonical);
      { NewLocalsAppend(canonical, n, canonical); }
      NewLocals(canonical, canonical) + NewLocals(n, canonical);
      { NewLocalsDropsCanonical(canonical, canonical); }
      NewLocals(n, canonical);
      { NewLocalsKeepsAll(n, canonical); }
      n;
    }
  }

  /**
   * A local list that is the canonical list followed by new records the
   * server does not know survives a flush unchanged.
   */
  lemma MergeKeepsNewLocals(canonical: seq<RecordRef>, locals: seq<RecordRef>)
    requires forall x :: x in locals ==> x.isNew && x !in canonical
    ensures Merge(canonical, canonical + locals) == canonical + locals
  {
    calc {
      NewLocals(canonical + locals, canonical);
      { NewLocalsAppend(canonical, locals, canonical); }
      NewLocals(canonical, canonical) + NewLocals(locals, canonical);
      { NewLocalsDropsCanonical(canonical, canonical); }
      NewLocals(locals, canonical);
      { NewLocalsKeepsAll(locals, canonical); }
      locals;
    }
  }

  /**
   * Two flushes worked out: with canonical [a, b] and local [a, b, n] where
   * `n` is new, `n` survives in place; with canonical [a] and local [a, x]
   * where `x` is persisted, `x` is dropped.
   */
  lemma FlushExamples(a: RecordRef, b: RecordRef, n: RecordRef, x: RecordRef)
    requires n.isNew && !x.isNew
    requires n != a && n != b && x != a
    ensures Merge([a, b], [a, b, n]) == [a, b, n]
    ensures Merge([a], [a, x]) == [a]
  {
    MergeKeepsNewLocals([a, b], [n]);
    assert [a, b] + [n] == [a, b, n];
    assert NewLocals([a, x], [a]) == [];
  }

  /**
   * The canonical list `computeChanges` builds from a target list: each
   * record is appended unless it is already there, so only first
   * occurrences remain, in target order.
   */
  function Dedup<T(==)>(s: seq<T>): (r: seq<T>)
    ensures |r| <= |s|
    ensures NoDups(r)
    ensures Elems(r) == Elems(s)
  {
    if s == [] then []
    else
      var d := Dedup(s[..|s| - 1]);
      var x := s[|s| - 1];
      assert s == s[..|s| - 1] + [x];
      assert Elems(s) == Elems(s[..|s| - 1]) + {x};
      if x in d then d else d + [x]
  }

  /**
   * What the add loop of `computeChanges` makes of a canonical list `left`:
   * target record `i` is inserted at position `i` (clamped to the end),
   * unless an earlier target record is the same record, in which case it is
   * already a canonical member and is skipped.
   */
  function AddEachAt<T(==)>(left: seq<T>, t: seq<T>): (r: seq<T>)
    ensures |r| <= |left| + |t|
    ensures Elems(r) == Elems(left) + Elems(t)
  {
    if t == [] then left
    else
      var p := t[..|t| - 1];
      var d := AddEachAt(left, p);
      var x := t[|t| - 1];
      assert t == p + [x];
      assert Elems(t) == Elems(p) + {x};
      if x in p then d else InsertAtElems(d, |t| - 1, x); InsertAt(d, |t| - 1, x)
  }

  /** One more step of the add loop: target record `j` is inserted at position `j` unless it occurred earlier. */
  lemma AddEachAtStep<T>(left: seq<T>, t: seq<T>, j: nat)
    requires j < |t|
    ensures AddEachAt(left, t[..j + 1]) ==
      if t[j] in Elems(t[..j]) then AddEachAt(left, t[..j]) else InsertAt(AddEachAt(left, t[..j]), j, t[j])
  {
    assert t[..j + 1][..j] == t[..j];
  }

  /**
   * Starting from an empty canonical list, every insertion of the add loop
   * lands at or past the end, so the loop appends first occurrences: it
   * builds the deduplicated target.
   */
  lemma {:induction false} AddEachAtFromEmpty<T>(t: seq<T>)
    ensures AddEachAt([], t) == Dedup(t)
  {
    if t != [] {
      var p := t[..|t| - 1];
      var x := t[|t| - 1];
      AddEachAtFromEmpty(p);
      InsertAtEnd(Dedup(p), |t| - 1, x);
      assert x in Dedup(p) <==> x in Elems(p);
    }
  }

  /** A list without duplicates is its own deduplication. */
  lemma {:induction false} DedupDistinct<T>(s: seq<T>)
    requires NoDups(s)
    ensures Dedup(s) == s
  {
    if s != [] {
      var t := s[..|s| - 1];
      assert NoDups(t);
      DedupDistinct(t);
      assert s[|s| - 1] !in t;
      assert t + [s[|s| - 1]] == s;
    }
  }

  /**
   * Deduplication keeps the order of first occurrences: when `x` first
   * occurs in `s` before `y` does, `x` comes before `y` in the result.
   */
  lemma {:induction false} DedupKeepsFirstOrder<T>(s: seq<T>, x: T, y: T)
    requires x in s && y in s
    requires IndexOf(s, x) < IndexOf(s, y)
    ensures IndexOf(Dedup(s), x) < IndexOf(Dedup(s), y)
  {
    var t := s[..|s| - 1];
    var last := s[|s| - 1];
    var d := Dedup(t);
    if y in t {
      assert IndexOf(s, y) < |s| - 1;
      IndexOfPrefix(s, t, y);
      IndexOfPrefix(s, t, x);
      DedupKeepsFirstOrder(t, x, y);
      assert x in Elems(d) && y in Elems(d);
      if last !in d {
        IndexOfPrefix(d + [last], d, x);
        IndexOfPrefix(d + [last], d, y);
      }
    } else {
      assert y == last;
      IndexOfPrefix(s, t, x);
      assert x in Elems(t);
      assert x in Elems(d) && y !in Elems(d);
      IndexOfPrefix(d + [y], d, x);
      assert IndexOf(d + [y], y) == |d|;
    }
  }

  /** `indexOf` on a longer list finds an element of a prefix at the same place. */
  lemma IndexOfPrefix<T>(s: seq<T>, t: seq<T>, x: T)
    requires t <= s && x in t
    ensures IndexOf(s, x) == IndexOf(t, x)
  {
  }
}
