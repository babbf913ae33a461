/** Small shared definitions: optional values and finite-set counting. */
module Common {

  datatype Option<+T> = None | Some(value: T)

  lemma Pick<T>(s: set<T>) returns (x: T)
    requires s != {}
    ensures x in s
  {
    x :| x in s;
  }

  /** A subset is no larger. */
  lemma {:induction false} SubsetSize<T>(a: set<T>, b: set<T>)
    requires a <= b
    ensures |a| <= |b|
    decreases a
  {
    if a != {} {
      var x :| x in a;
      SubsetSize(a - {x}, b - {x});
    }
  }

  ghost predicate Any<T>(s: seq<T>, p: T -> bool) {
    exists i :: 0 <= i < |s| && p(s[i])
  }

  lemma AnyOneMore<T>(s: seq<T>, p: T -> bool)
    requires s != []
    ensures Any(s, p) <==> Any(s[..|s| - 1], p) || p(s[|s| - 1])
  {
    assert forall i :: 0 <= i < |s| - 1 ==> s[..|s| - 1][i] == s[i];
  }

  /** What the empty sequence has and one more element keeps, every sequence has. */
  lemma {:induction false} OneByOne<T(!new)>(p: seq<T> -> bool, s: seq<T>)
    requires p([]) && forall before: seq<T>, last: T :: p(before) ==> p(before + [last])
    ensures p(s)
  {
    if s == [] {
      assert p([]);
    } else {
      OneByOne(p, s[..|s| - 1]);
      assert s == s[..|s| - 1] + [s[|s| - 1]];
    }
  }

  /** The integers lo, ..., hi - 1. */
  function Range(lo: int, hi: int): (r: set<int>)
    ensures forall x :: x in r <==> lo <= x < hi
    decreases hi - lo
  {
    if hi <= lo then {} else {lo} + Range(lo + 1, hi)
  }

  lemma {:induction false} RangeSize(lo: int, hi: int)
    requires lo <= hi
    ensures |Range(lo, hi)| == hi - lo
    decreases hi - lo
  {
    if lo < hi {
      assert Range(lo, hi) == {lo} + Range(lo + 1, hi);
      RangeSize(lo + 1, hi);
    }
  }

  /** An injective image fits inside any set that contains it. */
  lemma {:induction false} InjectionSize<T, U>(s: set<T>, f: T -> U, image: set<U>)
    requires forall x :: x in s ==> f(x) in image
    requires forall x, y :: x in s && y in s && f(x) == f(y) ==> x == y
    ensures |s| <= |image|
    decreases s
  {
    if s != {} {
      var x :| x in s;
      InjectionSize(s - {x}, f, image - {f(x)});
    }
  }
}
