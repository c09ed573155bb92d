/** Text order and sorting by a strict order. */
module Order {
  import opened Common

  /** Code-point order of texts, the order of Python strings and of binary-collated SQL text. */
  predicate TextLess(a: string, b: string) {
    if b == [] then false
    else if a == [] then true
    else a[0] < b[0] || (a[0] == b[0] && TextLess(a[1..], b[1..]))
  }

  lemma {:induction false} TextIrreflexive(a: string)
    ensures !TextLess(a, a)
  {
    if a != [] { TextIrreflexive(a[1..]); }
  }

  lemma {:induction false} TextTransitive(a: string, b: string, c: string)
    requires TextLess(a, b) && TextLess(b, c)
    ensures TextLess(a, c)
  {
    if a != [] && a[0] == b[0] == c[0] { TextTransitive(a[1..], b[1..], c[1..]); }
  }

  lemma {:induction false} TextTotal(a: string, b: string)
    ensures TextLess(a, b) || a == b || TextLess(b, a)
  {
    if a != [] && b != [] && a[0] == b[0] {
      TextTotal(a[1..], b[1..]);
      assert a == [a[0]] + a[1..] && b == [b[0]] + b[1..];
    }
  }

  // ----- sorting -----------------------------------------------------------------------------

  ghost predicate StrictOrder<T(!new)>(less: (T, T) -> bool) {
    (forall a :: !less(a, a)) && (forall a, b, c :: less(a, b) && less(b, c) ==> less(a, c))
  }

  /** Any two elements at different positions are ordered one way or the other. */
  ghost predicate Comparable<T>(s: seq<T>, less: (T, T) -> bool) {
    forall i, j :: 0 <= i < j < |s| ==> less(s[i], s[j]) || less(s[j], s[i])
  }

  predicate Sorted<T>(s: seq<T>, less: (T, T) -> bool) {
    forall i, j :: 0 <= i < j < |s| ==> less(s[i], s[j])
  }

  ghost function Elements<T>(s: seq<T>): set<T> {
    set x | x in s
  }

  function Insert<T>(x: T, s: seq<T>, less: (T, T) -> bool): seq<T> {
    if s == [] || less(x, s[0]) then [x] + s else [s[0]] + Insert(x, s[1..], less)
  }

  function SortBy<T>(s: seq<T>, less: (T, T) -> bool): seq<T> {
    if s == [] then [] else Insert(s[0], SortBy(s[1..], less), less)
  }

  lemma {:induction false} InsertElements<T>(x: T, s: seq<T>, less: (T, T) -> bool)
    ensures multiset(Insert(x, s, less)) == multiset{x} + multiset(s)
  {
    if s != [] && !less(x, s[0]) {
      InsertElements(x, s[1..], less);
      assert s == [s[0]] + s[1..];
    }
  }

  lemma {:induction false} SortPermutes<T>(s: seq<T>, less: (T, T) -> bool)
    ensures multiset(SortBy(s, less)) == multiset(s)
  {
    if s != [] {
      SortPermutes(s[1..], less);
      InsertElements(s[0], SortBy(s[1..], less), less);
      assert s == [s[0]] + s[1..];
    }
  }

  lemma {:induction false} SortElements<T>(s: seq<T>, less: (T, T) -> bool)
    ensures Elements(SortBy(s, less)) == Elements(s)
    ensures |SortBy(s, less)| == |s|
  {
    SortPermutes(s, less);
    var t := SortBy(s, less);
    forall x ensures x in t <==> x in s {
      assert x in t <==> x in multiset(t);
      assert x in s <==> x in multiset(s);
    }
    assert Elements(t) == Elements(s);
    assert |t| == |multiset(t)| && |s| == |multiset(s)|;
  }

  lemma {:induction false} InsertSorted<T(!new)>(x: T, s: seq<T>, less: (T, T) -> bool)
    requires StrictOrder(less) && Sorted(s, less)
    requires forall i :: 0 <= i < |s| ==> less(x, s[i]) || less(s[i], x)
    ensures Sorted(Insert(x, s, less), less)
  {
    if s != [] && !less(x, s[0]) {
      var rest := Insert(x, s[1..], less);
      InsertSorted(x, s[1..], less);
      InsertElements(x, s[1..], less);
      forall j | 0 <= j < |rest| ensures less(s[0], rest[j]) {
        assert rest[j] in multiset(rest);
        if rest[j] != x {
          assert rest[j] in multiset(s[1..]);
          var k :| 0 <= k < |s[1..]| && s[1..][k] == rest[j];
          assert less(s[0], s[k + 1]);
        }
      }
    } else if s != [] {
      forall j | 0 <= j < |s| ensures less(x, s[j]) {
        if j > 0 { assert less(s[0], s[j]); }
      }
    }
  }

  /** Sorting pairwise comparable elements sorts them. */
  lemma {:induction false} SortSorts<T(!new)>(s: seq<T>, less: (T, T) -> bool)
    requires StrictOrder(less) && Comparable(s, less)
    ensures Sorted(SortBy(s, less), less)
  {
    if s != [] {
      var rest := SortBy(s[1..], less);
      assert Comparable(s[1..], less) by {
        forall i, j | 0 <= i < j < |s[1..]| ensures less(s[1..][i], s[1..][j]) || less(s[1..][j], s[1..][i]) {
          assert s[1..][i] == s[i + 1] && s[1..][j] == s[j + 1];
        }
      }
      SortSorts(s[1..], less);
      SortElements(s[1..], less);
      forall i | 0 <= i < |rest| ensures less(s[0], rest[i]) || less(rest[i], s[0]) {
        assert rest[i] in Elements(rest);
        assert rest[i] in Elements(s[1..]);
        var k :| 0 <= k < |s[1..]| && s[1..][k] == rest[i];
        assert s[k + 1] == rest[i];
      }
      InsertSorted(s[0], rest, less);
    }
  }

  /** A strictly sorted sequence is determined by its elements. */
  lemma {:induction false} SortedIsUnique<T(!new)>(a: seq<T>, b: seq<T>, less: (T, T) -> bool)
    requires StrictOrder(less) && Sorted(a, less) && Sorted(b, less)
    requires Elements(a) == Elements(b)
    ensures a == b
  {
    EmptyExactly(a);
    EmptyExactly(b);
    if a != [] && b != [] {
      SameHead(a, b, less);
      assert Sorted(a[1..], less) && Sorted(b[1..], less);
      TailElements(a, less);
      TailElements(b, less);
      SortedIsUnique(a[1..], b[1..], less);
      assert a == [a[0]] + a[1..] && b == [b[0]] + b[1..];
    }
  }

  lemma EmptyExactly<T>(s: seq<T>)
    ensures s == [] <==> Elements(s) == {}
  {
    if s != [] { assert s[0] in Elements(s); }
  }

  lemma HeadIsLeast<T>(s: seq<T>, x: T, less: (T, T) -> bool)
    requires Sorted(s, less) && x in s
    ensures x == s[0] || less(s[0], x)
  {
  }

  lemma SameHead<T(!new)>(a: seq<T>, b: seq<T>, less: (T, T) -> bool)
    requires StrictOrder(less) && Sorted(a, less) && Sorted(b, less)
    requires Elements(a) == Elements(b) && a != [] && b != []
    ensures a[0] == b[0]
  {
    assert a[0] in Elements(b) && b[0] in Elements(a);
    HeadIsLeast(a, b[0], less);
    HeadIsLeast(b, a[0], less);
    assert !less(a[0], a[0]);
  }

  lemma TailElements<T(!new)>(a: seq<T>, less: (T, T) -> bool)
    requires StrictOrder(less) && Sorted(a, less) && a != []
    ensures Elements(a[1..]) == Elements(a) - {a[0]}
  {
  }

  // ----- provider/model pairs ----------------------------------------------------------------

  /** By provider, then by model. */
  predicate KeyLess(a: Key, b: Key) {
    TextLess(a.provider, b.provider) || (a.provider == b.provider && TextLess(a.model, b.model))
  }

  lemma KeyOrder()
    ensures StrictOrder(KeyLess)
    ensures forall a, b :: KeyLess(a, b) || a == b || KeyLess(b, a)
  {
    forall a ensures !KeyLess(a, a) {
      TextIrreflexive(a.provider);
      TextIrreflexive(a.model);
    }
    forall a, b, c | KeyLess(a, b) && KeyLess(b, c) ensures KeyLess(a, c) {
      if TextLess(a.provider, b.provider) && TextLess(b.provider, c.provider) {
        TextTransitive(a.provider, b.provider, c.provider);
      }
      if TextLess(a.model, b.model) && TextLess(b.model, c.model) { TextTransitive(a.model, b.model, c.model); }
    }
    forall a, b ensures KeyLess(a, b) || a == b || KeyLess(b, a) {
      TextTotal(a.provider, b.provider);
      TextTotal(a.model, b.model);
    }
  }
}
