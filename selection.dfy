/**
 * Order-preserving selection over a sequence: the meaning of a queryset
 * `.filter(...)` on an ordered table.
 */
module Selection {

  /** The elements of `s` that satisfy `keep`, in their original order. */
  function Select<T>(s: seq<T>, keep: T -> bool): (r: seq<T>)
    ensures |r| <= |s|
    ensures forall x :: x in r ==> x in s && keep(x)
    ensures forall x :: x in s && keep(x) ==> x in r
  {
    if s == [] then []
    else if keep(s[0]) then [s[0]] + Select(s[1..], keep)
    else Select(s[1..], keep)
  }

  /** `a` is obtained from `b` by deleting elements, without reordering. */
  ghost predicate IsSubsequence<T>(a: seq<T>, b: seq<T>)
    decreases |b|
  {
    a == [] || (b != [] && ((a[0] == b[0] && IsSubsequence(a[1..], b[1..])) || IsSubsequence(a, b[1..])))
  }

  lemma {:induction false} SelectIsSubsequence<T>(s: seq<T>, keep: T -> bool)
    ensures IsSubsequence(Select(s, keep), s)
  {
    if s != [] {
      SelectIsSubsequence(s[1..], keep);
      if keep(s[0]) {
        assert ([s[0]] + Select(s[1..], keep))[1..] == Select(s[1..], keep);
      }
    }
  }

  /** Selections agree when their predicates agree on the elements. */
  lemma {:induction false} SelectExt<T>(s: seq<T>, f: T -> bool, g: T -> bool)
    requires forall x :: x in s ==> f(x) == g(x)
    ensures Select(s, f) == Select(s, g)
  {
    if s != [] {
      SelectExt(s[1..], f, g);
    }
  }

  /** Chaining two selections is one selection by the conjunction. */
  lemma {:induction false} SelectSelect<T>(s: seq<T>, f: T -> bool, g: T -> bool, both: T -> bool)
    requires forall x :: x in s ==> both(x) == (f(x) && g(x))
    ensures Select(Select(s, f), g) == Select(s, both)
  {
    if s != [] {
      SelectSelect(s[1..], f, g, both);
    }
  }

  /** Selecting again by the same predicate changes nothing. */
  lemma {:induction false} SelectIdempotent<T>(s: seq<T>, f: T -> bool)
    ensures Select(Select(s, f), f) == Select(s, f)
  {
    if s != [] {
      SelectIdempotent(s[1..], f);
    }
  }

  /** Selections by two predicates commute. */
  lemma SelectCommutes<T>(s: seq<T>, f: T -> bool, g: T -> bool)
    ensures Select(Select(s, f), g) == Select(Select(s, g), f)
  {
    var both := (x: T) => f(x) && g(x);
    SelectSelect(s, f, g, both);
    SelectSelect(s, g, f, both);
  }

  /** A selection that rejects every element is empty. */
  lemma SelectNone<T>(s: seq<T>, f: T -> bool)
    requires forall x :: x in s ==> !f(x)
    ensures Select(s, f) == []
  {
    if Select(s, f) != [] {
      assert Select(s, f)[0] in Select(s, f);
    }
  }

  /** A selection that accepts every element is the whole sequence. */
  lemma {:induction false} SelectAll<T>(s: seq<T>, f: T -> bool)
    requires forall x :: x in s ==> f(x)
    ensures Select(s, f) == s
  {
    if s != [] {
      SelectAll(s[1..], f);
    }
  }

  /** Selecting from an extended sequence. */
  lemma {:induction false} SelectAppend<T>(s: seq<T>, x: T, f: T -> bool)
    ensures Select(s + [x], f) == Select(s, f) + (if f(x) then [x] else [])
  {
    if s == [] {
      assert [x][1..] == [];
    } else {
      assert (s + [x])[1..] == s[1..] + [x];
      SelectAppend(s[1..], x, f);
    }
  }

  /** A predicate and its negation split a sequence into two parts that together hold every element once. */
  lemma {:induction false} SelectPartition<T>(s: seq<T>, f: T -> bool, notF: T -> bool)
    requires forall x :: x in s ==> notF(x) == !f(x)
    ensures multiset(Select(s, f)) + multiset(Select(s, notF)) == multiset(s)
  {
    if s != [] {
      SelectPartition(s[1..], f, notF);
      assert multiset(s) == multiset{s[0]} + multiset(s[1..]) by {
        assert s == [s[0]] + s[1..];
      }
      if f(s[0]) {
        assert multiset(Select(s, f)) == multiset{s[0]} + multiset(Select(s[1..], f));
      } else {
        assert multiset(Select(s, notF)) == multiset{s[0]} + multiset(Select(s[1..], notF));
      }
    }
  }
}
