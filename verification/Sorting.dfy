/** Lexicographic order on strings and sorting by a comparison.
    Rust compares `String`s bytewise in UTF-8, which is the order of their code points. */
module Sorting {

  predicate StringLe(a: string, b: string) {
    |a| == 0 || (|b| > 0 && (a[0] < b[0] || (a[0] == b[0] && StringLe(a[1..], b[1..]))))
  }

  lemma {:induction false} StringLeTotal(a: string, b: string)
    ensures StringLe(a, b) || StringLe(b, a)
  {
    if |a| > 0 && |b| > 0 && a[0] == b[0] {
      StringLeTotal(a[1..], b[1..]);
    }
  }

  lemma {:induction false} StringLeTransitive(a: string, b: string, c: string)
    requires StringLe(a, b) && StringLe(b, c)
    ensures StringLe(a, c)
  {
    if |a| > 0 && a[0] == b[0] && b[0] == c[0] {
      StringLeTransitive(a[1..], b[1..], c[1..]);
    }
  }

  lemma {:induction false} StringLeAntisymmetric(a: string, b: string)
    requires StringLe(a, b) && StringLe(b, a)
    ensures a == b
  {
    if |a| > 0 {
      StringLeAntisymmetric(a[1..], b[1..]);
      assert a == [a[0]] + a[1..] && b == [b[0]] + b[1..];
    }
  }

  /** The order of strings: a prefix comes first, and otherwise the first difference decides. */
  lemma {:induction false} StringLeExactly(a: string, b: string)
    ensures StringLe(a, b)
       <==> a <= b || exists i :: 0 <= i < |a| && i < |b| && a[..i] == b[..i] && a[i] < b[i]
  {
    if |a| > 0 && |b| > 0 && a[0] == b[0] {
      var s, t := a[1..], b[1..];
      StringLeExactly(s, t);
      assert a == [a[0]] + s && b == [b[0]] + t;
      if i :| 0 <= i < |s| && i < |t| && s[..i] == t[..i] && s[i] < t[i] {
        assert a[..i + 1] == [a[0]] + s[..i] && b[..i + 1] == [b[0]] + t[..i];
        assert a[i + 1] < b[i + 1];
      }
      if i :| 0 <= i < |a| && i < |b| && a[..i] == b[..i] && a[i] < b[i] {
        assert s[..i - 1] == a[..i][1..] && t[..i - 1] == b[..i][1..];
        assert s[i - 1] < t[i - 1];
      }
    } else if |a| > 0 && |b| > 0 && a[0] < b[0] {
      assert a[..0] == b[..0];
    }
  }

  ghost predicate SortedBy<T(!new)>(s: seq<T>, le: (T, T) -> bool) {
    forall i, j :: 0 <= i < j < |s| ==> le(s[i], s[j])
  }

  /** `le` is a total preorder on `dom`. */
  ghost predicate Ranks<T(!new)>(le: (T, T) -> bool, dom: set<T>) {
    && (forall x, y {:trigger le(x, y)} :: x in dom && y in dom ==> le(x, y) || le(y, x))
    && (forall x, y, z {:trigger le(x, y), le(y, z)} ::
          x in dom && y in dom && z in dom && le(x, y) && le(y, z) ==> le(x, z))
  }

  ghost predicate Separates<T(!new)>(le: (T, T) -> bool, dom: set<T>) {
    forall x, y {:trigger le(x, y)} :: x in dom && y in dom && le(x, y) && le(y, x) ==> x == y
  }

  ghost predicate Within<T(!new)>(s: seq<T>, dom: set<T>) {
    forall i :: 0 <= i < |s| ==> s[i] in dom
  }

  function Insert<T>(x: T, s: seq<T>, le: (T, T) -> bool): seq<T> {
    if |s| == 0 || le(x, s[0]) then [x] + s else [s[0]] + Insert(x, s[1..], le)
  }

  /** What `slice::sort_by` returns: a sorted permutation (any such is the same when `le` separates). */
  function Sort<T>(s: seq<T>, le: (T, T) -> bool): seq<T> {
    if |s| == 0 then [] else Insert(s[0], Sort(s[1..], le), le)
  }

  lemma {:induction false} InsertPermutes<T>(x: T, s: seq<T>, le: (T, T) -> bool)
    ensures multiset(Insert(x, s, le)) == multiset{x} + multiset(s)
  {
    if |s| > 0 && !le(x, s[0]) {
      InsertPermutes(x, s[1..], le);
      assert s == [s[0]] + s[1..];
    }
  }

  lemma {:induction false} SortPermutes<T>(s: seq<T>, le: (T, T) -> bool)
    ensures multiset(Sort(s, le)) == multiset(s)
    ensures |Sort(s, le)| == |s|
  {
    if |s| > 0 {
      SortPermutes(s[1..], le);
      InsertPermutes(s[0], Sort(s[1..], le), le);
      assert s == [s[0]] + s[1..];
    }
    assert |multiset(Sort(s, le))| == |Sort(s, le)|;
    assert |multiset(s)| == |s|;
  }

  lemma SameElements<T>(a: seq<T>, b: seq<T>)
    requires multiset(a) == multiset(b)
    ensures |a| == |b|
    ensures forall x :: x in a <==> x in b
  {
    assert |multiset(a)| == |a| && |multiset(b)| == |b|;
    forall x ensures x in a <==> x in b {
      assert x in a <==> x in multiset(a);
      assert x in b <==> x in multiset(b);
    }
  }

  lemma Locate<T>(a: seq<T>, b: seq<T>, i: nat) returns (k: nat)
    requires multiset(a) == multiset(b) && i < |a|
    ensures |a| == |b| && k < |b| && b[k] == a[i]
  {
    assert |multiset(a)| == |a| && |multiset(b)| == |b|;
    assert a[i] in multiset(a);
    assert a[i] in multiset(b);
    k :| 0 <= k < |b| && b[k] == a[i];
  }

  lemma {:induction false} InsertSorted<T(!new)>(x: T, s: seq<T>, le: (T, T) -> bool, dom: set<T>)
    requires Ranks(le, dom) && x in dom && Within(s, dom)
    requires SortedBy(s, le)
    ensures SortedBy(Insert(x, s, le), le) && Within(Insert(x, s, le), dom)
    ensures forall y :: y in dom && le(y, x) && (forall i :: 0 <= i < |s| ==> le(y, s[i]))
              ==> forall i :: 0 <= i < |Insert(x, s, le)| ==> le(y, Insert(x, s, le)[i])
  {
    if |s| > 0 && !le(x, s[0]) {
      InsertSorted(x, s[1..], le, dom);
    }
  }

  lemma {:induction false} SortSorted<T(!new)>(s: seq<T>, le: (T, T) -> bool, dom: set<T>)
    requires Ranks(le, dom) && Within(s, dom)
    ensures SortedBy(Sort(s, le), le) && Within(Sort(s, le), dom)
  {
    if |s| > 0 {
      SortSorted(s[1..], le, dom);
      InsertSorted(s[0], Sort(s[1..], le), le, dom);
    }
  }

  lemma SplitFirst<T>(a: seq<T>)
    requires |a| > 0
    ensures multiset(a[1..]) == multiset(a) - multiset{a[0]}
  {
    assert a == [a[0]] + a[1..];
  }

  /** Two sorted arrangements of the same elements are the same sequence. */
  lemma {:induction false} SortedUnique<T(!new)>(a: seq<T>, b: seq<T>, le: (T, T) -> bool, dom: set<T>)
    requires multiset(a) == multiset(b)
    requires Ranks(le, dom) && Separates(le, dom) && Within(a, dom)
    requires SortedBy(a, le) && SortedBy(b, le)
    ensures a == b
  {
    SameElements(a, b);
    if |a| > 0 {
      var i := Locate(a, b, 0);
      var j := Locate(b, a, 0);
      assert a[0] == b[0] by {
        if i > 0 && j > 0 {
          assert le(b[0], b[i]) && le(a[0], a[j]);
        }
      }
      SplitFirst(a);
      SplitFirst(b);
      SortedUnique(a[1..], b[1..], le, dom);
      assert a == [a[0]] + a[1..] && b == [b[0]] + b[1..];
    }
  }

  /** Sorting a permutation of `s` gives the same sequence. */
  lemma SortUnique<T(!new)>(s: seq<T>, t: seq<T>, le: (T, T) -> bool, dom: set<T>)
    requires multiset(s) == multiset(t)
    requires Ranks(le, dom) && Separates(le, dom) && Within(s, dom)
    ensures Sort(s, le) == Sort(t, le)
  {
    SameElements(s, t);
    forall i | 0 <= i < |t| ensures t[i] in dom {
      assert t[i] in s;
    }
    SortPermutes(s, le);
    SortPermutes(t, le);
    SortSorted(s, le, dom);
    SortSorted(t, le, dom);
    SortedUnique(Sort(s, le), Sort(t, le), le, dom);
  }

  /** A sorted sequence is left as it is. */
  lemma SortSortedIdentity<T(!new)>(s: seq<T>, le: (T, T) -> bool, dom: set<T>)
    requires Ranks(le, dom) && Separates(le, dom) && Within(s, dom) && SortedBy(s, le)
    ensures Sort(s, le) == s
  {
    SortPermutes(s, le);
    SortSorted(s, le, dom);
    SortedUnique(s, Sort(s, le), le, dom);
  }

  function Map<T, U>(f: T -> U, s: seq<T>): (r: seq<U>)
    ensures |r| == |s|
    ensures forall i :: 0 <= i < |s| ==> r[i] == f(s[i])
  {
    seq(|s|, i requires 0 <= i < |s| => f(s[i]))
  }

  function Without<T>(s: seq<T>, k: nat): seq<T>
    requires k < |s|
  {
    s[..k] + s[k + 1..]
  }

  lemma PutBack<T>(s: seq<T>, k: nat)
    requires k < |s|
    ensures multiset(s) == multiset(Without(s, k)) + multiset{s[k]}
  {
    assert s == s[..k] + [s[k]] + s[k + 1..];
  }

  lemma RemoveMatched<T>(x: seq<T>, y: seq<T>, k: nat)
    requires multiset(x) == multiset(y) && |x| > 0 && k < |y| && y[k] == x[0]
    ensures multiset(Without(x, 0)) == multiset(Without(y, k))
  {
    PutBack(x, 0);
    PutBack(y, k);
    assert multiset(Without(x, 0)) == multiset(x) - multiset{x[0]};
  }

  lemma MapCons<T, U>(f: T -> U, x: T, s: seq<T>)
    ensures Map(f, [x] + s) == [f(x)] + Map(f, s)
  {
  }

  lemma MapWithout<T, U>(f: T -> U, s: seq<T>, k: nat)
    requires k < |s|
    ensures Map(f, Without(s, k)) == Without(Map(f, s), k)
  {
  }

  /** Rearranging the arguments rearranges the images. */
  lemma {:induction false} MapRearranged<T, U>(f: T -> U, a: seq<T>, b: seq<T>)
    requires multiset(a) == multiset(b)
    ensures multiset(Map(f, a)) == multiset(Map(f, b))
  {
    SameElements(a, b);
    if |a| > 0 {
      var k := Locate(a, b, 0);
      RemoveMatched(a, b, k);
      MapRearranged(f, Without(a, 0), Without(b, k));
      MapWithout(f, a, 0);
      MapWithout(f, b, k);
      PutBack(Map(f, a), 0);
      PutBack(Map(f, b), k);
    } else {
      assert a == [] && b == [];
    }
  }

  /** If the images agree as multisets, the arguments can be rearranged so that they agree in order. */
  lemma {:induction false} Rearrange<T, U>(f: T -> U, a: seq<T>, b: seq<T>) returns (c: seq<T>)
    requires multiset(Map(f, a)) == multiset(Map(f, b))
    ensures multiset(c) == multiset(b)
    ensures Map(f, c) == Map(f, a)
  {
    var x, y := Map(f, a), Map(f, b);
    SameElements(x, y);
    if |a| == 0 {
      c := [];
      assert b == [];
    } else {
      var k := Locate(x, y, 0);
      RemoveMatched(x, y, k);
      MapWithout(f, a, 0);
      MapWithout(f, b, k);
      var d := Rearrange(f, Without(a, 0), Without(b, k));
      c := [b[k]] + d;
      PutBack(b, k);
      MapCons(f, b[k], d);
      assert x == [x[0]] + Without(x, 0);
    }
  }

  lemma {:induction false} InsertOfMap<T(!new), U>(f: T -> U, x: T, s: seq<T>, le: (T, T) -> bool, le': (U, U) -> bool)
    requires forall y, z :: le'(f(y), f(z)) == le(y, z)
    ensures Insert(f(x), Map(f, s), le') == Map(f, Insert(x, s, le))
  {
    if |s| > 0 && !le(x, s[0]) {
      InsertOfMap(f, x, s[1..], le, le');
      assert Map(f, s)[1..] == Map(f, s[1..]);
      MapCons(f, s[0], Insert(x, s[1..], le));
    } else {
      MapCons(f, x, s);
    }
  }

  /** Sorting decorated elements and undecorating is sorting. */
  lemma {:induction false} SortOfMap<T(!new), U>(f: T -> U, s: seq<T>, le: (T, T) -> bool, le': (U, U) -> bool)
    requires forall y, z :: le'(f(y), f(z)) == le(y, z)
    ensures Sort(Map(f, s), le') == Map(f, Sort(s, le))
  {
    if |s| > 0 {
      SortOfMap(f, s[1..], le, le');
      assert Map(f, s)[1..] == Map(f, s[1..]);
      InsertOfMap(f, s[0], Sort(s[1..], le), le, le');
    }
  }
}
