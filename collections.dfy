/**
 * Sequence operations the pages build on: `Array.prototype.filter`,
 * the insertion order of a JavaScript `Set`, and the notions used to
 * specify them (subsequence, absence of duplicates, first occurrences).
 */
module Collections {

  datatype Option<T> = None | Some(value: T)

  /** `a` can be obtained from `b` by deleting elements, keeping the order of the rest. */
  predicate IsSubsequence<T(==, !new)>(a: seq<T>, b: seq<T>)
    decreases |b|
  {
    if a == [] then true
    else if b == [] then false
    else (a[0] == b[0] && IsSubsequence(a[1..], b[1..])) || IsSubsequence(a, b[1..])
  }

  /** No value occurs twice. */
  predicate NoDup<T(==, !new)>(s: seq<T>)
  {
    forall i, j | 0 <= i < j < |s| :: s[i] != s[j]
  }

  /**
   * `xs.filter(p)`: the elements satisfying `p`, in their original order,
   * each kept as often as it occurs.
   */
  function Filter<T(==, !new)>(s: seq<T>, p: T -> bool): (r: seq<T>)
    ensures |r| <= |s|
    ensures forall i | 0 <= i < |r| :: p(r[i])
    ensures forall x | p(x) :: multiset(r)[x] == multiset(s)[x]
    ensures forall x | !p(x) :: multiset(r)[x] == 0
    ensures IsSubsequence(r, s)
    decreases |s|
  {
    if s == [] then []
    else
      assert s == [s[0]] + s[1..];
      var rest := Filter(s[1..], p);
      if p(s[0]) then [s[0]] + rest else rest
  }

  /** Every list is a subsequence of itself. */
  lemma {:induction false} IsSubsequenceRefl<T(!new)>(s: seq<T>)
    ensures IsSubsequence(s, s)
    decreases |s|
  {
    if s != [] {
      IsSubsequenceRefl(s[1..]);
    }
  }

  /** A subsequence of a subsequence is a subsequence. */
  lemma {:induction false} IsSubsequenceTrans<T(!new)>(a: seq<T>, b: seq<T>, c: seq<T>)
    requires IsSubsequence(a, b) && IsSubsequence(b, c)
    ensures IsSubsequence(a, c)
    decreases |c|
  {
    if a != [] {
      if IsSubsequence(b, c[1..]) {
        IsSubsequenceTrans(a, b, c[1..]);
      } else if a[0] == b[0] && IsSubsequence(a[1..], b[1..]) {
        IsSubsequenceTrans(a[1..], b[1..], c[1..]);
      } else {
        IsSubsequenceTrans(a, b[1..], c[1..]);
      }
    }
  }

  /** Filtering distributes over concatenation. */
  lemma {:induction false} FilterAppend<T(!new)>(a: seq<T>, b: seq<T>, p: T -> bool)
    ensures Filter(a + b, p) == Filter(a, p) + Filter(b, p)
    decreases |a|
  {
    if a == [] {
      assert a + b == b;
    } else {
      assert (a + b)[0] == a[0];
      assert (a + b)[1..] == a[1..] + b;
      FilterAppend(a[1..], b, p);
    }
  }

  /** Filtering with a predicate that every element satisfies changes nothing. */
  lemma {:induction false} FilterAll<T(!new)>(s: seq<T>, p: T -> bool)
    requires forall i | 0 <= i < |s| :: p(s[i])
    ensures Filter(s, p) == s
    decreases |s|
  {
    if s != [] {
      FilterAll(s[1..], p);
    }
  }

  /** Filtering a sequence without duplicates leaves none. */
  lemma {:induction false} FilterNoDup<T(!new)>(s: seq<T>, p: T -> bool)
    requires NoDup(s)
    ensures NoDup(Filter(s, p))
    decreases |s|
  {
    if s != [] {
      var rest := s[1..];
      assert NoDup(rest);
      FilterNoDup(rest, p);
      assert s[0] !in rest;
      assert multiset(Filter(rest, p))[s[0]] == 0;
    }
  }

  /** The number of elements satisfying `p`. */
  function Count<T(==, !new)>(s: seq<T>, p: T -> bool): (n: nat)
    ensures n <= |s|
    ensures n == 0 <==> forall i | 0 <= i < |s| :: !p(s[i])
    ensures n == |s| <==> forall i | 0 <= i < |s| :: p(s[i])
    decreases |s|
  {
    if s == [] then 0
    else
      assert forall i | 1 <= i < |s| :: s[i] == s[1..][i - 1];
      (if p(s[0]) then 1 else 0) + Count(s[1..], p)
  }

  /** The count is the length of the filtered list: `xs.filter(p).length`. */
  lemma {:induction false} CountIsFilterLength<T(!new)>(s: seq<T>, p: T -> bool)
    ensures Count(s, p) == |Filter(s, p)|
    decreases |s|
  {
    if s != [] {
      CountIsFilterLength(s[1..], p);
    }
  }

  /** Counting splits over concatenation. */
  lemma CountAppend<T(!new)>(a: seq<T>, b: seq<T>, p: T -> bool)
    ensures Count(a + b, p) == Count(a, p) + Count(b, p)
  {
    FilterAppend(a, b, p);
    CountIsFilterLength(a + b, p);
    CountIsFilterLength(a, p);
    CountIsFilterLength(b, p);
  }

  /**
   * Reference definition of deduplication: every value at the position of its
   * first occurrence, later occurrences dropped.
   */
  function KeepFirst<T(==, !new)>(s: seq<T>): (r: seq<T>)
    ensures NoDup(r)
    ensures forall x :: x in r <==> x in s
    decreases |s|
  {
    if s == [] then []
    else
      var init, last := s[..|s| - 1], s[|s| - 1];
      assert s == init + [last];
      KeepFirst(init) + (if last in init then [] else [last])
  }

  /** A sequence without duplicates is its own deduplication. */
  lemma {:induction false} KeepFirstOfNoDup<T(!new)>(s: seq<T>)
    requires NoDup(s)
    ensures KeepFirst(s) == s
    decreases |s|
  {
    if s != [] {
      var init := s[..|s| - 1];
      assert NoDup(init);
      KeepFirstOfNoDup(init);
      assert s[|s| - 1] !in init;
      assert s == init + [s[|s| - 1]];
    }
  }

  /** Concatenation is associative; stated apart so that the step stays cheap where it is used. */
  lemma ConcatAssoc<T>(a: seq<T>, b: seq<T>, c: seq<T>)
    ensures (a + b) + c == a + (b + c)
  {
  }

  /** Filtering a sequence extended by one value extends the result by that value when it passes. */
  lemma FilterSnoc<T(!new)>(s: seq<T>, x: T, p: T -> bool)
    ensures Filter(s + [x], p) == Filter(s, p) + (if p(x) then [x] else [])
  {
    FilterAppend(s, [x], p);
    assert [x][1..] == [];
  }

  /**
   * Deduplicating `a + s`, for `a` without duplicates, yields `a` followed by
   * the first occurrences in `s` of the values that are not in `a`
   * (`isNew` is the test "not in `a`").
   */
  lemma {:induction false} KeepFirstAfter<T(!new)>(a: seq<T>, s: seq<T>, isNew: T -> bool)
    requires NoDup(a)
    requires forall x :: isNew(x) <==> x !in a
    ensures KeepFirst(a + s) == a + Filter(KeepFirst(s), isNew)
    decreases |s|
  {
    if s == [] {
      KeepFirstOfNoDup(a);
      assert a + s == a;
    } else {
      var init, x := s[..|s| - 1], s[|s| - 1];
      var k := KeepFirst(init);
      var before := KeepFirst(a + init);
      assert s == init + [x];
      assert a + s == (a + init) + [x];
      KeepFirstAfter(a, init, isNew);
      KeepFirstSnoc(a + init, x);
      KeepFirstSnoc(init, x);
      var added := if x in k || x in a then [] else [x];
      assert KeepFirst(a + s) == before + added;
      assert Filter(KeepFirst(s), isNew) == Filter(k, isNew) + added by {
        if x !in k {
          FilterSnoc(k, x, isNew);
        }
      }
      var f := Filter(k, isNew);
      assert before == a + f;
      ConcatAssoc(a, f, added);
    }
  }

  /**
   * Adding the values of `s`, left to right, to a JavaScript `Set` whose
   * insertion order is `acc`: a value already present keeps its place.
   * `Array.from(new Set(xs))` is `SetInsertAll([], xs)`.
   */
  function SetInsertAll<T(==, !new)>(acc: seq<T>, s: seq<T>): (r: seq<T>)
    ensures acc <= r
    ensures NoDup(acc) ==> NoDup(r)
    ensures forall x :: x in r <==> x in acc || x in s
    decreases |s|
  {
    if s == [] then acc
    else SetInsertAll(if s[0] in acc then acc else acc + [s[0]], s[1..])
  }

  /** Appending one value to a sequence extends its first occurrences by it exactly when it is new. */
  lemma KeepFirstSnoc<T(!new)>(p: seq<T>, x: T)
    ensures KeepFirst(p + [x]) == if x in KeepFirst(p) then KeepFirst(p) else KeepFirst(p) + [x]
  {
    var p' := p + [x];
    assert p'[..|p'| - 1] == p;
  }

  /** The Set's insertion order is the first-occurrence order of everything inserted. */
  lemma {:induction false} SetInsertAllKeepsFirst<T(!new)>(p: seq<T>, s: seq<T>)
    ensures SetInsertAll(KeepFirst(p), s) == KeepFirst(p + s)
    decreases |s|
  {
    if s == [] {
      assert p + s == p;
    } else {
      var p' := p + [s[0]];
      calc {
        SetInsertAll(KeepFirst(p), s);
        { KeepFirstSnoc(p, s[0]); }
        SetInsertAll(KeepFirst(p'), s[1..]);
        { SetInsertAllKeepsFirst(p', s[1..]); }
        KeepFirst(p' + s[1..]);
        { assert p' + s[1..] == p + s; }
        KeepFirst(p + s);
      }
    }
  }

  /** `Array.from(new Set(s))` deduplicates by first occurrence. */
  lemma ArrayFromSetIsKeepFirst<T(!new)>(s: seq<T>)
    ensures SetInsertAll([], s) == KeepFirst(s)
  {
    SetInsertAllKeepsFirst([], s);
    assert [] + s == s;
  }
}
