/**
 * The deduplication behind the `uniq` command: `list(dict.fromkeys(lines))`.
 * A dict keeps its keys in insertion order and ignores a key inserted again,
 * so each line survives exactly once, at the place where it first occurs.
 */
module Distinct {

  predicate NoDuplicates<T(==)>(s: seq<T>) {
    forall i, j :: 0 <= i < j < |s| ==> s[i] != s[j]
  }

  /** The index at which `x` first occurs in `s`. */
  function FirstIndex<T(==)>(s: seq<T>, x: T): (i: nat)
    requires x in s
    ensures i < |s| && s[i] == x && x !in s[..i]
  {
    if s[0] == x then 0 else 1 + FirstIndex(s[1..], x)
  }

  /**
   * The keys of `dict.fromkeys(s)`, in order: the keys of the prefix, plus the
   * last element when it is a new key.
   */
  function Dedup<T(==)>(s: seq<T>): (r: seq<T>)
    ensures |r| <= |s| && (r == [] <==> s == [])
    decreases |s|
  {
    if s == [] then []
    else
      var keys := Dedup(s[..|s| - 1]);
      if s[|s| - 1] in keys then keys else keys + [s[|s| - 1]]
  }

  /**
   * `r` is the first-occurrence deduplication of `s`: no element twice, the
   * same elements as `s`, and in the order of their first occurrences in `s`.
   */
  ghost predicate IsFirstOccurrenceOrder<T>(s: seq<T>, r: seq<T>) {
    && NoDuplicates(r)
    && (forall i :: 0 <= i < |r| ==> r[i] in s)
    && (forall i :: 0 <= i < |s| ==> s[i] in r)
    && (forall i, j :: 0 <= i < j < |r| ==> r[i] in s && r[j] in s && FirstIndex(s, r[i]) < FirstIndex(s, r[j]))
  }

  lemma {:induction false} FirstIndexInPrefix<T>(p: seq<T>, x: T, y: T)
    requires y in p
    ensures FirstIndex(p + [x], y) == FirstIndex(p, y)
    decreases |p|
  {
    if p[0] != y {
      assert (p + [x])[1..] == p[1..] + [x];
      FirstIndexInPrefix(p[1..], x, y);
    }
  }

  lemma FirstIndexOfNew<T>(p: seq<T>, x: T)
    requires x !in p
    ensures FirstIndex(p + [x], x) == |p|
  {
  }

  /** `Dedup` computes the first-occurrence deduplication. */
  lemma {:induction false} DedupIsFirstOccurrenceOrder<T>(s: seq<T>)
    ensures IsFirstOccurrenceOrder(s, Dedup(s))
    decreases |s|
  {
    if s != [] {
      var p, x := s[..|s| - 1], s[|s| - 1];
      assert s == p + [x];
      var d := Dedup(p);
      DedupIsFirstOccurrenceOrder(p);
      forall y | y in p ensures FirstIndex(s, y) == FirstIndex(p, y) {
        FirstIndexInPrefix(p, x, y);
      }
      if x !in d {
        FirstIndexOfNew(p, x);
        var r := d + [x];
        forall i, j | 0 <= i < j < |r|
          ensures r[i] in s && r[j] in s && FirstIndex(s, r[i]) < FirstIndex(s, r[j])
        {
          if j == |d| {
            assert r[i] == d[i] && d[i] in p;
          } else {
            assert r[i] == d[i] && r[j] == d[j];
          }
        }
      } else {
        forall i, j | 0 <= i < j < |d|
          ensures d[i] in s && d[j] in s && FirstIndex(s, d[i]) < FirstIndex(s, d[j])
        {
          assert d[i] in p && d[j] in p;
        }
      }
    }
  }

  /** When the last element repeats an earlier one, `r` also deduplicates the prefix. */
  lemma RestrictToPrefix<T>(p: seq<T>, x: T, r: seq<T>)
    requires x in p
    requires IsFirstOccurrenceOrder(p + [x], r)
    ensures IsFirstOccurrenceOrder(p, r)
  {
    var s := p + [x];
    forall y | y in p ensures FirstIndex(s, y) == FirstIndex(p, y) {
      FirstIndexInPrefix(p, x, y);
    }
    forall i | 0 <= i < |r| ensures r[i] in p {
      assert r[i] in s;
    }
    forall i | 0 <= i < |p| ensures p[i] in r {
      assert p[i] == s[i];
    }
    forall i, j | 0 <= i < j < |r|
      ensures r[i] in p && r[j] in p && FirstIndex(p, r[i]) < FirstIndex(p, r[j])
    {
      assert r[i] in p && r[j] in p;
    }
  }

  /** Every element of `r` but its last first occurs before the last position of `s`. */
  lemma OrderedBeforeLast<T>(s: seq<T>, r: seq<T>)
    requires IsFirstOccurrenceOrder(s, r)
    ensures forall k :: 0 <= k < |r| - 1 ==> FirstIndex(s, r[k]) < |s| - 1
  {
    forall k | 0 <= k < |r| - 1 ensures FirstIndex(s, r[k]) < |s| - 1 {
      assert FirstIndex(s, r[k]) < FirstIndex(s, r[|r| - 1]);
    }
  }

  /** When the last element is new, it comes last in `r`, and the rest deduplicates the prefix. */
  lemma DropNewLast<T>(p: seq<T>, x: T, r: seq<T>)
    requires x !in p
    requires IsFirstOccurrenceOrder(p + [x], r)
    ensures r != [] && r[|r| - 1] == x
    ensures IsFirstOccurrenceOrder(p, r[..|r| - 1])
  {
    var s := p + [x];
    forall y | y in p ensures FirstIndex(s, y) == FirstIndex(p, y) {
      FirstIndexInPrefix(p, x, y);
    }
    FirstIndexOfNew(p, x);
    assert s[|p|] == x;
    var k :| 0 <= k < |r| && r[k] == x;
    OrderedBeforeLast(s, r);
    assert k == |r| - 1;
    var r' := r[..|r| - 1];
    forall i | 0 <= i < |r'| ensures r'[i] in p {
      assert r'[i] == r[i] && r[i] in s && r[i] != x;
    }
    forall i | 0 <= i < |p| ensures p[i] in r' {
      assert p[i] == s[i] && p[i] in r && p[i] != x;
      var m :| 0 <= m < |r| && r[m] == p[i];
      assert m != k;
    }
    forall i, j | 0 <= i < j < |r'|
      ensures r'[i] in p && r'[j] in p && FirstIndex(p, r'[i]) < FirstIndex(p, r'[j])
    {
      assert r'[i] == r[i] && r'[j] == r[j];
    }
  }

  /** There is only one first-occurrence deduplication, so it is `Dedup`. */
  lemma {:induction false} FirstOccurrenceOrderIsUnique<T>(s: seq<T>, r: seq<T>)
    requires IsFirstOccurrenceOrder(s, r)
    ensures r == Dedup(s)
    decreases |s|
  {
    if s != [] {
      var p, x := s[..|s| - 1], s[|s| - 1];
      assert s == p + [x];
      DedupSameElements(p);
      if x in p {
        RestrictToPrefix(p, x, r);
        FirstOccurrenceOrderIsUnique(p, r);
      } else {
        DropNewLast(p, x, r);
        FirstOccurrenceOrderIsUnique(p, r[..|r| - 1]);
        assert r == r[..|r| - 1] + [x];
      }
    }
  }

  /** The result lists each distinct line once. */
  lemma DedupHasNoDuplicates<T>(s: seq<T>)
    ensures NoDuplicates(Dedup(s))
  {
    DedupIsFirstOccurrenceOrder(s);
  }

  /** The result holds exactly the lines of the input. */
  lemma DedupSameElements<T>(s: seq<T>)
    ensures forall x :: x in Dedup(s) <==> x in s
  {
    DedupIsFirstOccurrenceOrder(s);
  }

  /** Input without duplicates is left as it is. */
  lemma DedupOfDistinct<T>(s: seq<T>)
    requires NoDuplicates(s)
    ensures Dedup(s) == s
  {
    forall i, j | 0 <= i < j < |s| ensures FirstIndex(s, s[i]) < FirstIndex(s, s[j]) {
      assert FirstIndex(s, s[i]) == i && FirstIndex(s, s[j]) == j;
    }
    FirstOccurrenceOrderIsUnique(s, s);
  }

  /** Deduplicating twice is the same as deduplicating once. */
  lemma DedupIdempotent<T>(s: seq<T>)
    ensures Dedup(Dedup(s)) == Dedup(s)
  {
    DedupHasNoDuplicates(s);
    DedupOfDistinct(Dedup(s));
  }

  /** A line repeated after another line is dropped: [line1, line2, line1] gives [line1, line2]. */
  lemma DedupDropsLaterRepeat<T>(a: T, b: T)
    requires a != b
    ensures Dedup([a, b, a]) == [a, b]
  {
    assert [a][..0] == [];
    assert Dedup([a]) == [a];
    assert [a, b][..1] == [a];
    assert Dedup([a, b]) == [a, b];
    assert [a, b, a][..2] == [a, b];
  }

  /** Not adjacent-only: a repeat after another line is dropped too. */
  lemma DedupExample(a: string, b: string, c: string)
    requires a != b && b != c && a != c
    ensures Dedup([a, b, a, c, b]) == [a, b, c]
  {
    assert [a][..0] == [];
    assert Dedup([a]) == [a];
    assert [a, b][..1] == [a];
    assert Dedup([a, b]) == [a, b];
    assert [a, b, a][..2] == [a, b];
    assert Dedup([a, b, a]) == [a, b];
    assert [a, b, a, c][..3] == [a, b, a];
    assert Dedup([a, b, a, c]) == [a, b, c];
    assert [a, b, a, c, b][..4] == [a, b, a, c];
  }

  /**
   * `dict.fromkeys(lines)` as the loop it performs: each line is inserted as a
   * key unless it is one already; the keys come out in insertion order.
   */
  method FromKeys<T(==)>(lines: seq<T>) returns (keys: seq<T>)
    ensures keys == Dedup(lines)
  {
    var seen: set<T> := {};
    keys := [];
    for i := 0 to |lines|
      invariant keys == Dedup(lines[..i])
      invariant forall x :: x in seen <==> x in keys
    {
      assert lines[..i + 1][..i] == lines[..i];
      if lines[i] !in seen {
        keys := keys + [lines[i]];
        seen := seen + {lines[i]};
      }
    }
    assert lines[..|lines|] == lines;
  }
}
