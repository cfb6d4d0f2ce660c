/** Sequence operations the UI code takes from JavaScript arrays and sets:
    `slice(start)`, `filter(x => x !== v)`, and `[...new Set(xs)]`. */
module Sequences {

  function Min(a: int, b: int): int { if a <= b then a else b }

  predicate NoDup<T(==)>(s: seq<T>)
  {
    forall i, j :: 0 <= i < j < |s| ==> s[i] != s[j]
  }

  /** `s.slice(start)`: a negative start counts back from the end and is
      clamped at 0; a start past the end gives the empty array. */
  function SliceFrom<T>(s: seq<T>, start: int): (r: seq<T>)
    ensures |r| <= |s| && r == s[|s| - |r|..]
    ensures start < 0 ==> |r| == Min(-start, |s|)
    ensures 0 <= start ==> |r| == if start <= |s| then |s| - start else 0
  {
    var from := if start < 0 then (if |s| + start < 0 then 0 else |s| + start)
                else (if start <= |s| then start else |s|);
    s[from..]
  }

  /** A character outside the Basic Multilingual Plane, which a JavaScript
      string stores as a surrogate pair. */
  predicate Astral(c: char)
  {
    c as int >= 0x1_0000
  }

  /** A JavaScript string's `length`: UTF-16 code units, so one for a BMP
      character and two for an astral one. */
  function Utf16Length(s: string): (n: nat)
    ensures |s| <= n <= 2 * |s|
    ensures n == |s| <==> forall i :: 0 <= i < |s| ==> !Astral(s[i])
    ensures n == 2 * |s| <==> forall i :: 0 <= i < |s| ==> Astral(s[i])
    ensures |s| == 1 ==> n == if Astral(s[0]) then 2 else 1
  {
    if s == [] then 0
    else (if Astral(s[0]) then 2 else 1) + Utf16Length(s[1..])
  }

  /** Lengths add under concatenation, so with the one-character values the
      count of any string is fixed: one unit per character plus one more per
      astral character. */
  lemma {:induction false} Utf16LengthAppend(a: string, b: string)
    ensures Utf16Length(a + b) == Utf16Length(a) + Utf16Length(b)
  {
    if a == [] {
      assert a + b == b;
    } else {
      assert (a + b)[1..] == a[1..] + b;
      Utf16LengthAppend(a[1..], b);
    }
  }

  /** The exact count: the number of characters plus the number of astral
      ones among them. */
  function AstralCount(s: string): nat
  {
    if s == [] then 0 else (if Astral(s[|s| - 1]) then 1 else 0) + AstralCount(s[..|s| - 1])
  }

  lemma {:induction false} Utf16LengthCountsAstral(s: string)
    ensures Utf16Length(s) == |s| + AstralCount(s)
  {
    if s != [] {
      var p := s[..|s| - 1];
      assert s == p + [s[|s| - 1]];
      Utf16LengthAppend(p, [s[|s| - 1]]);
      Utf16LengthCountsAstral(p);
    }
  }

  /** `s.filter(item => item !== x)`. */
  function Without<T(==,!new)>(s: seq<T>, x: T): (r: seq<T>)
    ensures x !in r
    ensures forall y :: y != x ==> (y in r <==> y in s)
    ensures |r| <= |s|
    ensures x in s ==> |r| < |s|
  {
    if s == [] then []
    else if s[0] == x then Without(s[1..], x)
    else [s[0]] + Without(s[1..], x)
  }

  /** Filtering distributes over concatenation, so the kept elements stay in
      their original relative order. */
  lemma {:induction false} WithoutAppend<T(!new)>(a: seq<T>, b: seq<T>, x: T)
    ensures Without(a + b, x) == Without(a, x) + Without(b, x)
  {
    if a == [] {
      assert a + b == b;
    } else {
      assert (a + b)[1..] == a[1..] + b;
      WithoutAppend(a[1..], b, x);
    }
  }

  /** Filtering out a value that does not occur changes nothing. */
  lemma {:induction false} WithoutAbsent<T(!new)>(s: seq<T>, x: T)
    requires x !in s
    ensures Without(s, x) == s
  {
    if s != [] {
      WithoutAbsent(s[1..], x);
    }
  }

  /** In a duplicate-free sequence, filtering out an element deletes exactly
      its one position and leaves the rest in order. */
  lemma {:induction false} RemoveUnique<T(!new)>(s: seq<T>, i: int)
    requires NoDup(s) && 0 <= i < |s|
    ensures Without(s, s[i]) == s[..i] + s[i + 1..]
  {
    var x := s[i];
    var a, b := s[..i], s[i + 1..];
    assert s == a + ([x] + b);
    assert x !in a by {
      forall k | 0 <= k < |a| ensures a[k] != x { assert a[k] == s[k]; }
    }
    assert x !in b by {
      forall k | 0 <= k < |b| ensures b[k] != x { assert b[k] == s[i + 1 + k]; }
    }
    WithoutAppend(a, [x] + b, x);
    WithoutAppend([x], b, x);
    WithoutAbsent(a, x);
    WithoutAbsent(b, x);
    assert Without([x], x) == [];
  }

  /** `[...new Set(s)]`: the distinct elements of `s`, in the order in which
      each first occurs (a JavaScript Set iterates in insertion order). */
  function Distinct<T(==)>(s: seq<T>): seq<T>
  {
    if s == [] then []
    else
      var d := Distinct(s[..|s| - 1]);
      if s[|s| - 1] in d then d else d + [s[|s| - 1]]
  }

  /** Index of the first occurrence of `x` in `s`. */
  function FirstIndex<T(==)>(s: seq<T>, x: T): (k: nat)
    requires x in s
    ensures k < |s| && s[k] == x
    ensures forall j :: 0 <= j < k ==> s[j] != x
  {
    if s[0] == x then 0 else 1 + FirstIndex(s[1..], x)
  }

  lemma FirstIndexExtend<T>(s: seq<T>, y: T, x: T)
    requires x in s
    ensures x in s + [y] && FirstIndex(s + [y], x) == FirstIndex(s, x)
  {
    var k := FirstIndex(s, x);
    assert (s + [y])[k] == x;
  }

  /** Deduplication keeps exactly the elements of the input. */
  lemma {:induction false} DistinctElements<T(!new)>(s: seq<T>)
    ensures forall x :: x in Distinct(s) <==> x in s
  {
    if s != [] {
      var p := s[..|s| - 1];
      DistinctElements(p);
      assert s == p + [s[|s| - 1]];
    }
  }

  /** Deduplication yields no repeated element. */
  lemma {:induction false} DistinctNoDup<T>(s: seq<T>)
    ensures NoDup(Distinct(s))
  {
    if s != [] {
      DistinctNoDup(s[..|s| - 1]);
    }
  }

  /** Deduplication lists elements in first-occurrence order: an earlier
      element of the result first occurs earlier in the input. */
  lemma {:induction false} DistinctFirstOccurrenceOrder<T(!new)>(s: seq<T>)
    ensures forall x :: x in Distinct(s) ==> x in s
    ensures forall i, j :: 0 <= i < j < |Distinct(s)| ==>
              FirstIndex(s, Distinct(s)[i]) < FirstIndex(s, Distinct(s)[j])
  {
    DistinctElements(s);
    if s != [] {
      var p := s[..|s| - 1];
      var y := s[|s| - 1];
      assert s == p + [y];
      DistinctFirstOccurrenceOrder(p);
      forall i, j | 0 <= i < j < |Distinct(s)|
        ensures FirstIndex(s, Distinct(s)[i]) < FirstIndex(s, Distinct(s)[j])
      {
        DistinctOrderStep(p, y, i, j);
      }
    }
  }

  /** One pair of the induction step: appending `y` keeps an ordered pair
      ordered, and a newly added `y` first occurs after everything else. */
  lemma DistinctOrderStep<T(!new)>(p: seq<T>, y: T, i: int, j: int)
    requires forall x :: x in Distinct(p) ==> x in p
    requires forall a, b :: 0 <= a < b < |Distinct(p)| ==>
               FirstIndex(p, Distinct(p)[a]) < FirstIndex(p, Distinct(p)[b])
    requires 0 <= i < j < |Distinct(p + [y])|
    ensures Distinct(p + [y])[i] in p + [y] && Distinct(p + [y])[j] in p + [y]
    ensures FirstIndex(p + [y], Distinct(p + [y])[i]) < FirstIndex(p + [y], Distinct(p + [y])[j])
  {
    var s := p + [y];
    assert s[..|s| - 1] == p && s[|s| - 1] == y;
    var d := Distinct(p);
    var ds := Distinct(s);
    assert ds == if y in d then d else d + [y];
    assert ds[i] == d[i];
    FirstIndexExtend(p, y, d[i]);
    if j < |d| {
      assert ds[j] == d[j];
      FirstIndexExtend(p, y, d[j]);
    } else {
      DistinctElements(p);
      assert ds[j] == y && y !in p;
      assert s[|p|] == y;
      assert FirstIndex(s, y) == |p|;
    }
  }
}
