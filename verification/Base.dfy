/** Result and option types shared by every module. */
module Base {

  datatype Option<+T> = None | Some(value: T)

  /** A Python call that returns a value or raises an error carrying a stable code. */
  datatype Result<+T, +E> = Ok(value: T) | Err(error: E) {
    predicate IsFailure() { Err? }

    function PropagateFailure<U>(): Result<U, E>
      requires Err?
    {
      Err(error)
    }

    function Extract(): T
      requires Ok?
    {
      value
    }
  }

  /** A lower-case hexadecimal SHA-256. */
  predicate IsHex64(s: string) {
    |s| == 64 && forall i :: 0 <= i < |s| ==> ('0' <= s[i] <= '9' || 'a' <= s[i] <= 'f')
  }

  /** 64 digits of a lower-case hexadecimal number. */
  predicate IsDigest(s: string) {
    |s| == 64 && forall c <- s :: c in "0123456789abcdef"
  }

  lemma DigestExact(s: string)
    ensures IsHex64(s) <==> IsDigest(s)
  {
    forall c: char
      ensures ('0' <= c <= '9' || 'a' <= c <= 'f') <==> c in "0123456789abcdef"
    {
      HexDigit(c);
    }
    if IsDigest(s) {
      forall i | 0 <= i < |s|
        ensures '0' <= s[i] <= '9' || 'a' <= s[i] <= 'f'
      {
        assert s[i] in s;
      }
    }
  }

  lemma HexDigit(c: char)
    ensures ('0' <= c <= '9' || 'a' <= c <= 'f') <==> c in "0123456789abcdef"
  {
    var digits := "0123456789abcdef";
    if '0' <= c <= '9' {
      assert digits[c as int - '0' as int] == c;
    } else if 'a' <= c <= 'f' {
      assert digits[c as int - 'a' as int + 10] == c;
    }
  }

  /** `if not condition: raise Error(code)`. */
  function Need<E>(condition: bool, code: E): Result<(), E> {
    if condition then Ok(()) else Err(code)
  }
}

/** Quantities and amounts added up over finite sets. */
module Sums {

  /** A number of units and a sum of money. */
  datatype Totals = Totals(quantity: int, amount: real)

  const ZERO := Totals(0, 0.0)

  predicate Within(a: Totals, b: Totals) {
    a.quantity <= b.quantity && a.amount <= b.amount
  }

  function Plus(a: Totals, b: Totals): Totals {
    Totals(a.quantity + b.quantity, a.amount + b.amount)
  }

  ghost function Sum<T>(s: set<T>, f: T -> Totals): Totals {
    if s == {} then
      ZERO
    else
      var x :| x in s;
      Plus(f(x), Sum(s - {x}, f))
  }

  lemma SumPick<T>(s: set<T>, f: T -> Totals) returns (x: T)
    requires s != {}
    ensures x in s && Sum(s, f) == Plus(f(x), Sum(s - {x}, f))
  {
    x :| x in s && Sum(s, f) == Plus(f(x), Sum(s - {x}, f));
  }

  lemma PlusSwap(a: Totals, b: Totals, c: Totals)
    ensures Plus(a, Plus(b, c)) == Plus(b, Plus(a, c))
  {
  }

  /** The sum does not depend on the order in which elements are taken. */
  lemma {:induction false} SumInsert<T>(s: set<T>, x: T, f: T -> Totals)
    requires x !in s
    ensures Sum(s + {x}, f) == Plus(f(x), Sum(s, f))
    decreases |s|
  {
    hide Sum, Plus;
    var all := s + {x};
    var y := SumPick(all, f);
    if y == x {
      assert all - {x} == s;
    } else {
      var rest := s - {y};
      assert all - {y} == rest + {x};
      assert s == rest + {y};
      SumInsert(rest, x, f);
      SumInsert(rest, y, f);
      PlusSwap(f(y), f(x), Sum(rest, f));
    }
  }

  /** With nothing negative, fewer elements never add up to more. */
  lemma {:induction false} SumSubset<T>(small: set<T>, big: set<T>, f: T -> Totals)
    requires small <= big
    requires forall x <- big :: Within(ZERO, f(x))
    ensures Within(Sum(small, f), Sum(big, f))
    decreases |big|
  {
    hide Sum;
    if small != big {
      var x :| x in big && x !in small;
      SumSubset(small, big - {x}, f);
      SumInsert(big - {x}, x, f);
      assert big == (big - {x}) + {x};
    }
  }
}

/**
 Ordering and sorting. Python's `sorted` is stable and uses the order of its key; here a
 sort is an insertion sort over an order given as a function, and the lemmas say when its
 result is sorted and when it does not depend on the order of the input.
 */
module Sorting {

  ghost predicate Total<T(!new)>(le: (T, T) -> bool) {
    forall x, y :: le(x, y) || le(y, x)
  }

  ghost predicate Transitive<T(!new)>(le: (T, T) -> bool) {
    forall x, y, z :: le(x, y) && le(y, z) ==> le(x, z)
  }

  ghost predicate Antisymmetric<T(!new)>(le: (T, T) -> bool) {
    forall x, y :: le(x, y) && le(y, x) ==> x == y
  }

  ghost predicate Sorted<T>(s: seq<T>, le: (T, T) -> bool) {
    forall i, j :: 0 <= i < j < |s| ==> le(s[i], s[j])
  }

  function Insert<T>(x: T, s: seq<T>, le: (T, T) -> bool): (r: seq<T>)
    ensures multiset(r) == multiset(s) + multiset{x}
  {
    if s == [] || le(x, s[0]) then
      [x] + s
    else
      assert s == [s[0]] + s[1..];
      [s[0]] + Insert(x, s[1..], le)
  }

  /** Python's `sorted(s, key=...)`: an element stays before a later one that is not smaller. */
  function Sort<T>(s: seq<T>, le: (T, T) -> bool): (r: seq<T>)
    ensures multiset(r) == multiset(s)
    ensures |r| == |s|
  {
    if s == [] then
      []
    else
      assert s == [s[0]] + s[1..];
      var r := Insert(s[0], Sort(s[1..], le), le);
      assert |multiset(r)| == |r|;
      r
  }

  lemma {:induction false} InsertSorted<T(!new)>(x: T, s: seq<T>, le: (T, T) -> bool)
    requires Total(le) && Transitive(le) && Sorted(s, le)
    ensures Sorted(Insert(x, s, le), le)
  {
    if s == [] || le(x, s[0]) {
    } else {
      var rest := Insert(x, s[1..], le);
      InsertSorted(x, s[1..], le);
      forall j | 0 <= j < |rest|
        ensures le(s[0], rest[j])
      {
        assert rest[j] in multiset(rest);
        assert rest[j] in multiset(s[1..]) || rest[j] == x;
      }
    }
  }

  lemma {:induction false} SortSorted<T(!new)>(s: seq<T>, le: (T, T) -> bool)
    requires Total(le) && Transitive(le)
    ensures Sorted(Sort(s, le), le)
  {
    if s == [] {
    } else {
      SortSorted(s[1..], le);
      InsertSorted(s[0], Sort(s[1..], le), le);
    }
  }

  lemma SortMembers<T>(s: seq<T>, le: (T, T) -> bool)
    ensures forall x :: x in Sort(s, le) <==> x in s
  {
    forall x
      ensures x in Sort(s, le) <==> x in s
    {
      assert x in multiset(Sort(s, le)) <==> x in multiset(s);
    }
  }

  lemma SortedHead<T(!new)>(a: seq<T>, b: seq<T>, le: (T, T) -> bool)
    requires Sorted(a, le) && multiset(a) == multiset(b) && a != [] && b != []
    ensures a[0] == b[0] || le(a[0], b[0])
  {
    assert b[0] in multiset(a);
    var k :| 0 <= k < |a| && a[k] == b[0];
  }

  lemma SortedTail<T(!new)>(s: seq<T>, le: (T, T) -> bool)
    requires Sorted(s, le) && s != []
    ensures Sorted(s[1..], le) && multiset(s[1..]) == multiset(s) - multiset{s[0]}
  {
    assert s == [s[0]] + s[1..];
  }

  /** Two sorted arrangements of the same elements are the same sequence. */
  lemma {:induction false} SortedUnique<T(!new)>(a: seq<T>, b: seq<T>, le: (T, T) -> bool)
    requires Antisymmetric(le)
    requires Sorted(a, le) && Sorted(b, le) && multiset(a) == multiset(b)
    ensures a == b
  {
    hide Sorted;
    assert |multiset(a)| == |a| && |multiset(b)| == |b|;
    if a != [] {
      SortedHead(a, b, le);
      SortedHead(b, a, le);
      SortedTail(a, le);
      SortedTail(b, le);
      SortedUnique(a[1..], b[1..], le);
      assert a == [a[0]] + a[1..] && b == [b[0]] + b[1..];
    }
  }

  /** Sorting under a total order forgets the order in which the elements were given. */
  lemma SortForgetsOrder<T(!new)>(a: seq<T>, b: seq<T>, le: (T, T) -> bool)
    requires Total(le) && Transitive(le) && Antisymmetric(le)
    requires multiset(a) == multiset(b)
    ensures Sort(a, le) == Sort(b, le)
  {
    SortSorted(a, le);
    SortSorted(b, le);
    SortedUnique(Sort(a, le), Sort(b, le), le);
  }

  /** Lexicographic order, as Python compares tuples and lists of numbers. */
  predicate LexLe(a: seq<int>, b: seq<int>) {
    a == [] || (b != [] && (a[0] < b[0] || (a[0] == b[0] && LexLe(a[1..], b[1..]))))
  }

  function Codes(s: string): (r: seq<int>) {
    seq(|s|, i requires 0 <= i < |s| => s[i] as int)
  }

  /** Python's order on strings: lexicographic by code point. */
  predicate TextLe(a: string, b: string) {
    LexLe(Codes(a), Codes(b))
  }

  lemma {:induction false} LexTotal(a: seq<int>, b: seq<int>)
    ensures LexLe(a, b) || LexLe(b, a)
  {
    if a != [] && b != [] && a[0] == b[0] {
      LexTotal(a[1..], b[1..]);
    }
  }

  lemma {:induction false} LexTransitive(a: seq<int>, b: seq<int>, c: seq<int>)
    requires LexLe(a, b) && LexLe(b, c)
    ensures LexLe(a, c)
  {
    if a != [] && a[0] == b[0] == c[0] {
      LexTransitive(a[1..], b[1..], c[1..]);
    }
  }

  lemma {:induction false} LexAntisymmetric(a: seq<int>, b: seq<int>)
    requires LexLe(a, b) && LexLe(b, a)
    ensures a == b
  {
    if a != [] {
      LexAntisymmetric(a[1..], b[1..]);
      assert a == [a[0]] + a[1..] && b == [b[0]] + b[1..];
    }
  }

  /** One string is a prefix of the other, or has the smaller character where they first differ. */
  ghost predicate InOrder<T>(a: seq<T>, b: seq<T>, less: (T, T) -> bool) {
    a <= b || exists k | 0 <= k < |a| && k < |b| :: a[..k] == b[..k] && less(a[k], b[k])
  }

  predicate SmallerNumber(x: int, y: int) { x < y }
  predicate SmallerChar(x: char, y: char) { x < y }

  lemma {:induction false} LexExact(a: seq<int>, b: seq<int>)
    ensures LexLe(a, b) <==> InOrder(a, b, SmallerNumber)
  {
    if a != [] && b != [] && a[0] == b[0] {
      LexExact(a[1..], b[1..]);
      assert a == [a[0]] + a[1..] && b == [b[0]] + b[1..];
      if k :| 0 <= k < |a| - 1 && k < |b| - 1 && a[1..][..k] == b[1..][..k] && a[1..][k] < b[1..][k] {
        assert a[..k + 1] == [a[0]] + a[1..][..k] && b[..k + 1] == [b[0]] + b[1..][..k];
        assert SmallerNumber(a[k + 1], b[k + 1]);
      }
      if k :| 0 <= k < |a| && k < |b| && a[..k] == b[..k] && a[k] < b[k] {
        assert a[1..][..k - 1] == a[..k][1..] && b[1..][..k - 1] == b[..k][1..];
        assert SmallerNumber(a[1..][k - 1], b[1..][k - 1]);
      }
    } else if a != [] && b != [] && a[0] < b[0] {
      assert a[..0] == b[..0] && SmallerNumber(a[0], b[0]);
    }
  }

  lemma CodesPrefix(a: string, b: string, k: nat)
    requires k <= |a| && k <= |b|
    ensures Codes(a)[..k] == Codes(b)[..k] <==> a[..k] == b[..k]
  {
    var x, y := Codes(a), Codes(b);
    if x[..k] == y[..k] {
      forall i | 0 <= i < k
        ensures a[..k][i] == b[..k][i]
      {
        assert x[..k][i] == y[..k][i];
      }
    } else if a[..k] == b[..k] {
      forall i | 0 <= i < k
        ensures x[..k][i] == y[..k][i]
      {
        assert a[..k][i] == b[..k][i];
      }
    }
  }

  /** Strings are compared by their first difference. */
  lemma TextLeExact(a: string, b: string)
    ensures TextLe(a, b) <==> InOrder(a, b, SmallerChar)
  {
    var x, y := Codes(a), Codes(b);
    LexExact(x, y);
    forall k: nat | k <= |a| && k <= |b| {
      CodesPrefix(a, b, k);
    }
    if |a| <= |b| {
      assert x[..|a|] == x && a[..|a|] == a;
    }
    assert forall k | 0 <= k < |a| && k < |b| :: SmallerNumber(x[k], y[k]) <==> SmallerChar(a[k], b[k]);
  }

  lemma TextTotal(a: string, b: string)
    ensures TextLe(a, b) || TextLe(b, a)
  {
    LexTotal(Codes(a), Codes(b));
  }

  lemma TextTransitive(a: string, b: string, c: string)
    requires TextLe(a, b) && TextLe(b, c)
    ensures TextLe(a, c)
  {
    LexTransitive(Codes(a), Codes(b), Codes(c));
  }

  lemma TextAntisymmetric(a: string, b: string)
    requires TextLe(a, b) && TextLe(b, a)
    ensures a == b
  {
    LexAntisymmetric(Codes(a), Codes(b));
    forall i | 0 <= i < |a|
      ensures a[i] == b[i]
    {
      assert Codes(a)[i] == Codes(b)[i];
    }
  }
}
