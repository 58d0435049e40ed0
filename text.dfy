/**
  The pieces of Python's string and list semantics that the emoji mapper and
  the utilities rely on: `str.lower()`, the `in` operator on strings, the
  prefix slice `xs[:n]` (including a negative `n`), and duplicate-free lists.
 */
module Text {

  function Min(a: int, b: int): int { if a <= b then a else b }

  function Max(a: int, b: int): int { if a <= b then b else a }

  /** `str.lower()` on one character; only the ASCII letters A-Z are mapped. */
  function LowerChar(c: char): char
  {
    if 'A' <= c <= 'Z' then (c as int - 'A' as int + 'a' as int) as char else c
  }

  predicate IsUpper(c: char) { 'A' <= c <= 'Z' }

  /** No upper-case letter: what `s.lower()` returns. */
  predicate IsLowercase(s: string)
  {
    forall i :: 0 <= i < |s| ==> !IsUpper(s[i])
  }

  /** `s.lower()`: the same length, every character lowered, none upper case left. */
  function Lower(s: string): (r: string)
    ensures |r| == |s|
    ensures forall i :: 0 <= i < |s| ==> r[i] == LowerChar(s[i])
    ensures IsLowercase(r)
  {
    if s == [] then [] else [LowerChar(s[0])] + Lower(s[1..])
  }

  /** Lowering leaves a string without upper-case letters as it is. */
  lemma LowercaseUnchanged(s: string)
    requires IsLowercase(s)
    ensures Lower(s) == s
  {
  }

  /** Lowering a slice is slicing the lowered string. */
  lemma LowerSlice(s: string, i: int, j: int)
    requires 0 <= i <= j <= |s|
    ensures Lower(s)[i..j] == Lower(s[i..j])
  {
    var lowered, slice := Lower(s), s[i..j];
    var lowerSlice := Lower(slice);
    forall k | 0 <= k < j - i ensures lowered[i + k] == lowerSlice[k] {
      assert slice[k] == s[i + k];
    }
    assert lowered[i..j] == lowerSlice;
  }

  /** Lowering twice is lowering once, so a key stored as `keyword.lower()` is its own lower form. */
  lemma {:induction false} LowerIdempotent(s: string)
    ensures Lower(Lower(s)) == Lower(s)
  {
    if s != [] {
      LowerIdempotent(s[1..]);
      assert Lower(s) == [LowerChar(s[0])] + Lower(s[1..]);
    }
  }

  /** The meaning of Python's `needle in hay` on strings: `needle` occurs at some position. */
  ghost predicate Occurs(needle: string, hay: string)
  {
    exists i :: OccursAt(needle, hay, i)
  }

  /** `needle` occurs in `hay` starting at position `i`. */
  predicate OccursAt(needle: string, hay: string, i: int)
  {
    0 <= i && i + |needle| <= |hay| && hay[i..i + |needle|] == needle
  }

  /** An executable substring search, proved to decide `Occurs`. */
  function Contains(hay: string, needle: string): (b: bool)
    ensures b <==> Occurs(needle, hay)
    decreases |hay|
  {
    if |needle| > |hay| then false
    else if hay[..|needle|] == needle then (assert OccursAt(needle, hay, 0); true)
    else
      var rest := Contains(hay[1..], needle);
      if rest then
        var i :| OccursAt(needle, hay[1..], i);
        SliceOfTail(hay, i + 1, |needle|);
        assert OccursAt(needle, hay, i + 1);
        true
      else
        assert !Occurs(needle, hay) by {
          forall i | 0 <= i && i + |needle| <= |hay|
            ensures !OccursAt(needle, hay, i)
          {
            if i > 0 {
              SliceOfTail(hay, i, |needle|);
              assert !OccursAt(needle, hay[1..], i - 1);
            }
          }
        }
        false
  }

  /** A window of the tail is the window one further along in the whole string. */
  lemma SliceOfTail(s: string, i: int, n: int)
    requires 1 <= i && 0 <= n && i + n <= |s|
    ensures s[1..][i - 1..i - 1 + n] == s[i..i + n]
  {
    var tail := s[1..];
    forall k | i <= k < i + n ensures tail[k - 1] == s[k] {
    }
    assert tail[i - 1..i - 1 + n] == s[i..i + n];
  }

  /** The empty string occurs in every string (Python: `'' in s` is True). */
  lemma EmptyOccursEverywhere(hay: string)
    ensures Occurs([], hay)
  {
    assert OccursAt([], hay, 0);
  }

  /** Occurrence is transitive: a substring of a substring of `c` is a substring of `c`. */
  lemma OccursTransitive(a: string, b: string, c: string)
    requires Occurs(a, b)
    ensures Occurs(b, c) ==> Occurs(a, c)
  {
    if !Occurs(b, c) {
      return;
    }
    var i :| OccursAt(a, b, i);
    var j :| OccursAt(b, c, j);
    forall k | 0 <= k < |a| ensures c[j + i + k] == a[k] {
      assert c[j + i + k] == c[j..j + |b|][i + k] == b[i + k];
      assert b[i + k] == b[i..i + |a|][k];
    }
    assert c[j + i..j + i + |a|] == a;
    assert OccursAt(a, c, j + i);
  }

  /** Matching is case-insensitive: an occurrence survives lowering both sides. */
  lemma LowerPreservesOccurs(needle: string, hay: string)
    requires Occurs(needle, hay)
    ensures Occurs(Lower(needle), Lower(hay))
  {
    var i :| OccursAt(needle, hay, i);
    LowerSlice(hay, i, i + |needle|);
    assert OccursAt(Lower(needle), Lower(hay), i);
  }

  /** Python's `xs[:n]`: a negative `n` counts from the end, a too large `n` takes everything. */
  function Take<T>(xs: seq<T>, n: int): (r: seq<T>)
    ensures r <= xs
    ensures n >= 0 ==> |r| == Min(n, |xs|)
    ensures n < 0 ==> |r| == Max(0, |xs| + n)
  {
    if n >= 0 then xs[..Min(n, |xs|)] else xs[..Max(0, |xs| + n)]
  }

  /** No element appears twice (what `list(set(...))` and `random.sample` of such a list give). */
  predicate Distinct<T(==)>(s: seq<T>)
  {
    forall i, j :: 0 <= i < j < |s| ==> s[i] != s[j]
  }

  /** A list is duplicate-free exactly when each value has multiplicity at most one. */
  lemma {:induction false} DistinctMultiplicity<T>(s: seq<T>)
    ensures Distinct(s) <==> forall x :: multiset(s)[x] <= 1
  {
    if s != [] {
      var t := s[1..];
      assert s == [s[0]] + t;
      DistinctMultiplicity(t);
      if Distinct(s) {
        assert s[0] !in t by {
          forall k | 0 <= k < |t| ensures t[k] != s[0] {
            assert t[k] == s[k + 1];
          }
        }
        assert Distinct(t) by {
          forall i, j | 0 <= i < j < |t| ensures t[i] != t[j] {
            assert t[i] == s[i + 1] && t[j] == s[j + 1];
          }
        }
        forall x ensures multiset(s)[x] <= 1 {
          assert multiset(s)[x] == multiset(t)[x] + (if x == s[0] then 1 else 0);
        }
      } else {
        var i, j :| 0 <= i < j < |s| && s[i] == s[j];
        if i == 0 {
          assert s[0] in t by { assert t[j - 1] == s[j]; }
          assert multiset(s)[s[0]] == multiset(t)[s[0]] + 1;
        } else {
          assert t[i - 1] == t[j - 1];
          assert !Distinct(t);
          var x :| multiset(t)[x] > 1;
          assert multiset(s)[x] >= multiset(t)[x];
        }
      }
    }
  }

  /** Whatever is drawn without replacement from a duplicate-free list is duplicate-free. */
  lemma DistinctSubMultiset<T>(r: seq<T>, s: seq<T>)
    requires multiset(r) <= multiset(s) && Distinct(s)
    ensures Distinct(r)
  {
    DistinctMultiplicity(s);
    forall x ensures multiset(r)[x] <= 1 {
      assert multiset(r)[x] <= multiset(s)[x];
    }
    DistinctMultiplicity(r);
  }

  /** A duplicate-free list that enumerates a set has the set's size. */
  lemma {:induction false} DistinctCardinality<T>(s: seq<T>, elements: set<T>)
    requires Distinct(s)
    requires forall x :: x in s <==> x in elements
    ensures |s| == |elements|
  {
    if s != [] {
      var t := s[1..];
      assert s[0] !in t by {
        forall k | 0 <= k < |t| ensures t[k] != s[0] {
          assert t[k] == s[k + 1];
        }
      }
      assert Distinct(t) by {
        forall i, j | 0 <= i < j < |t| ensures t[i] != t[j] {
          assert t[i] == s[i + 1] && t[j] == s[j + 1];
        }
      }
      forall x ensures x in t <==> x in elements - {s[0]} {
        assert x in s <==> x == s[0] || x in t;
      }
      DistinctCardinality(t, elements - {s[0]});
    } else {
      assert elements == {} by {
        forall x ensures x !in elements {
          assert x !in s;
        }
      }
    }
  }
}
