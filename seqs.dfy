/** Small sequence vocabulary shared by the modules below: the JavaScript array
    operations the source relies on (`indexOf`, `splice(i, 1)`) and a few
    specification helpers. */
module Seqs {

  datatype Option<T> = None | Some(value: T)

  /** True when no element occurs twice. */
  predicate Distinct<T(==)>(s: seq<T>) {
    forall i, j :: 0 <= i < j < |s| ==> s[i] != s[j]
  }

  /** `Array.prototype.indexOf`: the first index holding `x`, or -1. */
  function IndexOf<T(==)>(s: seq<T>, x: T): (i: int)
    ensures i == -1 <==> x !in s
    ensures i != -1 ==> 0 <= i < |s| && s[i] == x && x !in s[..i]
  {
    if s == [] then -1
    else if s[0] == x then 0
    else
      var j := IndexOf(s[1..], x);
      if j == -1 then -1
      else
        assert s[..j + 1] == [s[0]] + s[1..][..j];
        j + 1
  }

  /** `splice(i, 1)`: the sequence without the element at index `i`. */
  function RemoveAt<T>(s: seq<T>, i: nat): (r: seq<T>)
    requires i < |s|
    ensures |r| == |s| - 1
    ensures forall j :: 0 <= j < i ==> r[j] == s[j]
    ensures forall j :: i <= j < |r| ==> r[j] == s[j + 1]
  {
    s[..i] + s[i + 1..]
  }

  /** The sequence with every occurrence of `x` dropped, the rest in order. */
  function Without<T(==,!new)>(s: seq<T>, x: T): (r: seq<T>)
    ensures x !in r
    ensures |r| <= |s|
  {
    if s == [] then []
    else
      assert s == [s[0]] + s[1..];
      if s[0] == x then Without(s[1..], x) else [s[0]] + Without(s[1..], x)
  }

  /** `n` copies of `x`. */
  function Repeat<T>(x: T, n: nat): (r: seq<T>)
    ensures |r| == n
    ensures forall i :: 0 <= i < n ==> r[i] == x
  {
    if n == 0 then [] else [x] + Repeat(x, n - 1)
  }

  lemma {:induction false} WithoutAbsent<T(!new)>(s: seq<T>, x: T)
    requires x !in s
    ensures Without(s, x) == s
  {
    if s != [] {
      WithoutAbsent(s[1..], x);
    }
  }

  lemma {:induction false} WithoutSubset<T(!new)>(s: seq<T>, x: T, y: T)
    requires y in Without(s, x)
    ensures y in s && y != x
  {
    if s != [] && s[0] != y {
      assert s == [s[0]] + s[1..];
      if s[0] == x {
        WithoutSubset(s[1..], x, y);
      } else {
        assert y in Without(s[1..], x);
        WithoutSubset(s[1..], x, y);
      }
    }
  }

  /** The number of occurrences of `x` in `s`. */
  function Count<T(==)>(s: seq<T>, x: T): (n: nat)
    ensures n == 0 <==> x !in s
    ensures n <= |s|
  {
    if s == [] then 0 else (if s[0] == x then 1 else 0) + Count(s[1..], x)
  }

  lemma {:induction false} CountAppend<T>(a: seq<T>, b: seq<T>, x: T)
    ensures Count(a + b, x) == Count(a, x) + Count(b, x)
  {
    if a != [] {
      assert (a + b)[1..] == a[1..] + b;
      CountAppend(a[1..], b, x);
    } else {
      assert a + b == b;
    }
  }

  /** Dropping `x` keeps the number of occurrences of every other element. */
  lemma {:induction false} WithoutCount<T(!new)>(s: seq<T>, x: T, y: T)
    ensures Count(Without(s, x), y) == if y == x then 0 else Count(s, y)
  {
    if s != [] {
      WithoutCount(s[1..], x, y);
      if s[0] != x {
        assert ([s[0]] + Without(s[1..], x))[1..] == Without(s[1..], x);
      }
    }
  }

  /** Removing the first occurrence of `x` and then all the others is removing them all at once. */
  lemma {:induction false} WithoutAfterRemoveFirst<T(!new)>(s: seq<T>, x: T)
    requires x in s
    ensures Without(RemoveAt(s, IndexOf(s, x)), x) == Without(s, x)
  {
    var i := IndexOf(s, x);
    assert s == [s[0]] + s[1..];
    if s[0] == x {
      assert RemoveAt(s, i) == s[1..];
    } else {
      var t := s[1..];
      var r := RemoveAt(t, i - 1);
      WithoutAfterRemoveFirst(t, x);
      assert RemoveAt(s, i) == [s[0]] + r;
      assert ([s[0]] + r)[1..] == r;
    }
  }

  /** `splice(indexOf(x), 1)` takes exactly one `x` out and keeps the rest. */
  lemma {:induction false} RemoveFirstCount<T>(s: seq<T>, x: T, y: T)
    requires x in s
    ensures Count(RemoveAt(s, IndexOf(s, x)), y) == Count(s, y) - (if y == x then 1 else 0)
  {
    var i := IndexOf(s, x);
    assert s == s[..i] + ([x] + s[i + 1..]);
    CountAppend(s[..i], [x] + s[i + 1..], y);
    CountAppend(s[..i], s[i + 1..], y);
    assert ([x] + s[i + 1..])[1..] == s[i + 1..];
  }

  lemma {:induction false} RepeatCount<T>(x: T, n: nat, y: T)
    ensures Count(Repeat(x, n), y) == if y == x then n else 0
  {
    if n > 0 {
      RepeatCount(x, n - 1, y);
      assert Repeat(x, n)[1..] == Repeat(x, n - 1);
    }
  }

  lemma {:induction false} WithoutRepeat<T(!new)>(s: seq<T>, x: T, n: nat)
    ensures Without(s + Repeat(x, n), x) == Without(s, x)
  {
    if s == [] {
      assert s + Repeat(x, n) == Repeat(x, n);
      if n > 0 {
        var rest := Repeat(x, n - 1);
        assert Repeat(x, n) == [x] + rest;
        assert ([x] + rest)[1..] == rest;
        WithoutRepeat([], x, n - 1);
        assert [] + rest == rest;
      }
    } else {
      assert (s + Repeat(x, n))[1..] == s[1..] + Repeat(x, n);
      WithoutRepeat(s[1..], x, n);
    }
  }

  /** The elements of a sequence, as a set. */
  function Elems<T>(s: seq<T>): set<T> {
    set x | x in s
  }

  lemma ElemsAppend<T>(a: seq<T>, b: seq<T>)
    ensures Elems(a + b) == Elems(a) + Elems(b)
  {
    assert forall x :: x in a + b <==> x in a || x in b;
  }

  /** The sequence in reverse order. */
  function Reverse<T>(s: seq<T>): (r: seq<T>)
    ensures |r| == |s| && forall i :: 0 <= i < |s| ==> r[i] == s[|s| - 1 - i]
  {
    seq(|s|, i requires 0 <= i < |s| => s[|s| - 1 - i])
  }

  lemma ReverseAppend<T>(a: seq<T>, b: seq<T>)
    ensures Reverse(a + b) == Reverse(b) + Reverse(a)
  {
  }
}
