/**
 Strings as Rust's `String` orders and joins them: the ordinal (char by
 char) lexicographic order that `Vec<String>::sort` uses, a sort
 specified by that order, and `join`.

 Rust compares strings by their UTF-8 bytes; UTF-8 preserves the order of
 code points, so comparing `char`s one by one gives the same order.
 */
module Strings {

  /** `a <= b` in lexicographic order: a proper prefix comes first. */
  predicate LessEq(a: string, b: string)
    decreases |a|
  {
    if a == [] then true
    else if b == [] then false
    else if a[0] != b[0] then a[0] < b[0]
    else LessEq(a[1..], b[1..])
  }

  lemma {:induction false} LessEqReflexive(a: string)
    ensures LessEq(a, a)
  {
    if a != [] { LessEqReflexive(a[1..]); }
  }

  lemma {:induction false} LessEqTotal(a: string, b: string)
    ensures LessEq(a, b) || LessEq(b, a)
  {
    if a != [] && b != [] && a[0] == b[0] { LessEqTotal(a[1..], b[1..]); }
  }

  lemma {:induction false} LessEqAntisymmetric(a: string, b: string)
    requires LessEq(a, b) && LessEq(b, a)
    ensures a == b
  {
    if a != [] && b != [] {
      LessEqAntisymmetric(a[1..], b[1..]);
      assert a == [a[0]] + a[1..] && b == [b[0]] + b[1..];
    }
  }

  lemma {:induction false} LessEqTransitive(a: string, b: string, c: string)
    requires LessEq(a, b) && LessEq(b, c)
    ensures LessEq(a, c)
  {
    if a != [] && b != [] && c != [] && a[0] == b[0] == c[0] {
      LessEqTransitive(a[1..], b[1..], c[1..]);
    }
  }

  /** Ascending order, every pair compared. */
  ghost predicate Sorted(s: seq<string>)
  {
    forall i, j :: 0 <= i < j < |s| ==> LessEq(s[i], s[j])
  }

  /** Ascending order of neighbours is enough, the order being transitive. */
  lemma {:induction false} SortedFromNeighbours(s: seq<string>)
    requires forall i :: 0 < i < |s| ==> LessEq(s[i - 1], s[i])
    ensures Sorted(s)
  {
    if |s| > 1 {
      SortedFromNeighbours(s[1..]);
      forall j | 1 < j < |s| ensures LessEq(s[0], s[j]) {
        assert LessEq(s[1], s[j]) by { assert s[1..][0] == s[1] && s[1..][j - 1] == s[j]; }
        LessEqTransitive(s[0], s[1], s[j]);
      }
    }
  }

  /** Inserts `x` into the sorted list `s` before its first element above `x`. */
  function Insert(x: string, s: seq<string>): (r: seq<string>)
    ensures multiset(r) == multiset(s) + multiset{x}
    ensures |r| == |s| + 1
  {
    if s == [] then [x]
    else if LessEq(x, s[0]) then [x] + s
    else assert s == [s[0]] + s[1..]; [s[0]] + Insert(x, s[1..])
  }

  /** The head of a sorted list is below every element of the list. */
  lemma SortedHeadLeast(s: seq<string>, y: string)
    requires Sorted(s) && y in multiset(s)
    ensures LessEq(s[0], y)
  {
    var i :| 0 <= i < |s| && s[i] == y;
    if i == 0 { LessEqReflexive(y); }
  }

  lemma SortedTail(s: seq<string>)
    requires Sorted(s) && s != []
    ensures Sorted(s[1..])
    ensures multiset(s[1..]) == multiset(s) - multiset{s[0]}
    ensures s == [s[0]] + s[1..]
  {
    assert s == [s[0]] + s[1..];
  }

  /** A list below whose every element `x` lies stays sorted with `x` in front. */
  lemma ConsSorted(x: string, t: seq<string>)
    requires Sorted(t)
    requires forall y :: y in multiset(t) ==> LessEq(x, y)
    ensures Sorted([x] + t)
  {
    var r := [x] + t;
    forall i, j | 0 <= i < j < |r| ensures LessEq(r[i], r[j]) {
      assert r[j] == t[j - 1];
      if i == 0 {
        assert t[j - 1] in multiset(t);
      } else {
        assert r[i] == t[i - 1];
      }
    }
  }

  lemma {:induction false} InsertSorted(x: string, s: seq<string>)
    requires Sorted(s)
    ensures Sorted(Insert(x, s))
  {
    if s == [] {
    } else if LessEq(x, s[0]) {
      forall y | y in multiset(s) ensures LessEq(x, y) {
        SortedHeadLeast(s, y);
        LessEqTransitive(x, s[0], y);
      }
      ConsSorted(x, s);
    } else {
      LessEqTotal(x, s[0]);
      SortedTail(s);
      var t := Insert(x, s[1..]);
      InsertSorted(x, s[1..]);
      forall y | y in multiset(t) ensures LessEq(s[0], y) {
        if y != x { SortedHeadLeast(s, y); }
      }
      ConsSorted(s[0], t);
    }
  }

  /** Insertion sort, standing for the standard library's `slice::sort`. */
  function Sort(s: seq<string>): (r: seq<string>)
    ensures multiset(r) == multiset(s)
    ensures |r| == |s|
  {
    if s == [] then []
    else
      assert s == s[..|s| - 1] + [s[|s| - 1]];
      Insert(s[|s| - 1], Sort(s[..|s| - 1]))
  }

  lemma {:induction false} SortSorted(s: seq<string>)
    ensures Sorted(Sort(s))
  {
    if s != [] {
      SortSorted(s[..|s| - 1]);
      InsertSorted(s[|s| - 1], Sort(s[..|s| - 1]));
    }
  }

  /** The standard library's in-place `sort` on a list of strings, seen
      through its contract: the result is ascending and a permutation. */
  method SortStrings(s: seq<string>) returns (r: seq<string>)
    ensures Sorted(r)
    ensures multiset(r) == multiset(s)
  {
    r := Sort(s);
    SortSorted(s);
  }

  /** Two sorted lists with the same elements start with the same string. */
  lemma SortedSameHead(a: seq<string>, b: seq<string>)
    requires Sorted(a) && Sorted(b) && a != []
    requires multiset(a) == multiset(b)
    ensures b != [] && a[0] == b[0]
  {
    assert |b| == |multiset(b)| == |multiset(a)| == |a|;
    SortedHeadLeast(a, b[0]);
    SortedHeadLeast(b, a[0]);
    LessEqAntisymmetric(a[0], b[0]);
  }

  /** Two sorted lists with the same elements are the same list: the sorted
      order of a collection of strings is unique. */
  lemma {:induction false} SortedUnique(a: seq<string>, b: seq<string>)
    requires Sorted(a) && Sorted(b)
    requires multiset(a) == multiset(b)
    ensures a == b
  {
    if a == [] {
      assert |multiset(b)| == 0;
    } else {
      SortedSameHead(a, b);
      SortedTail(a);
      SortedTail(b);
      SortedUnique(a[1..], b[1..]);
    }
  }

  /** `parts.join(sep)`: the parts with `sep` between neighbours. */
  function Join(parts: seq<string>, sep: string): (r: string)
    ensures parts != [] ==> parts[0] <= r
  {
    if parts == [] then ""
    else if |parts| == 1 then parts[0]
    else parts[0] + sep + Join(parts[1..], sep)
  }

  /** The sum of the lengths of the strings in `s`. */
  function TotalLen(s: seq<string>): nat
  {
    if s == [] then 0 else |s[0]| + TotalLen(s[1..])
  }

  lemma {:induction false} JoinLength(parts: seq<string>, sep: string)
    requires parts != []
    ensures |Join(parts, sep)| == TotalLen(parts) + (|parts| - 1) * |sep|
  {
    if |parts| > 1 { JoinLength(parts[1..], sep); }
  }

  lemma {:induction false} JoinAppend(parts: seq<string>, x: string, sep: string)
    requires parts != []
    ensures Join(parts + [x], sep) == Join(parts, sep) + sep + x
  {
    if |parts| > 1 {
      assert (parts + [x])[1..] == parts[1..] + [x];
      JoinAppend(parts[1..], x, sep);
    }
  }

  lemma {:induction false} TotalLenConcat(a: seq<string>, b: seq<string>)
    ensures TotalLen(a + b) == TotalLen(a) + TotalLen(b)
  {
    if a == [] {
      assert a + b == b;
    } else {
      assert (a + b)[1..] == a[1..] + b;
      TotalLenConcat(a[1..], b);
    }
  }

  /** Taking the element at `i` out of `a`. */
  lemma RemoveAt(a: seq<string>, i: nat)
    requires i < |a|
    ensures multiset(a[..i] + a[i + 1..]) == multiset(a) - multiset{a[i]}
    ensures TotalLen(a) == TotalLen(a[..i] + a[i + 1..]) + |a[i]|
  {
    assert a == a[..i] + ([a[i]] + a[i + 1..]);
    assert ([a[i]] + a[i + 1..])[1..] == a[i + 1..];
    TotalLenConcat(a[..i], [a[i]] + a[i + 1..]);
    TotalLenConcat(a[..i], a[i + 1..]);
  }

  /** A list whose elements all occur in `b` (with multiplicity) is no longer
      in total than `b`. */
  lemma {:induction false} TotalLenSubBag(a: seq<string>, b: seq<string>)
    requires multiset(a) <= multiset(b)
    ensures TotalLen(a) <= TotalLen(b)
  {
    if b == [] {
      assert |multiset(a)| == 0;
    } else {
      var b', x := b[..|b| - 1], b[|b| - 1];
      RemoveAt(b, |b| - 1);
      assert b[..|b| - 1] + b[|b|..] == b';
      if x in multiset(a) {
        var i :| 0 <= i < |a| && a[i] == x;
        RemoveAt(a, i);
        TotalLenSubBag(a[..i] + a[i + 1..], b');
      } else {
        TotalLenSubBag(a, b');
      }
    }
  }

  /** Every string of `parts` and `sep` is drawn from characters satisfying
      `ok`, so `Join` is too. */
  lemma {:induction false} JoinChars(parts: seq<string>, sep: string, ok: char -> bool)
    requires forall c :: c in sep ==> ok(c)
    requires forall p, c :: p in parts && c in p ==> ok(c)
    ensures forall c :: c in Join(parts, sep) ==> ok(c)
  {
    if |parts| > 1 { JoinChars(parts[1..], sep, ok); }
  }

  /** `f` applied to every element, in order. */
  function MapSeq<A, B>(f: A -> B, s: seq<A>): (r: seq<B>)
    ensures |r| == |s|
    ensures forall i :: 0 <= i < |s| ==> r[i] == f(s[i])
  {
    seq(|s|, i requires 0 <= i < |s| => f(s[i]))
  }

  lemma MapSeqSnoc<A, B>(f: A -> B, s: seq<A>, i: nat)
    requires i < |s|
    ensures MapSeq(f, s[..i + 1]) == MapSeq(f, s[..i]) + [f(s[i])]
  {
  }
}
