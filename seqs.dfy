/** `Array.prototype.filter` and the sums the dashboard folds with
    `reduce`. */
module Seqs {

  /** `s.filter(p)`: the elements satisfying `p`, in their original order. */
  function Filter<T(!new)>(s: seq<T>, p: T -> bool): (r: seq<T>)
    ensures |r| <= |s|
    ensures forall x :: x in r <==> x in s && p(x)
  {
    if s == [] then [] else (if p(s[0]) then [s[0]] else []) + Filter(s[1..], p)
  }

  /** Filtering a concatenation filters each part, keeping their order. */
  lemma {:induction false} FilterConcat<T(!new)>(a: seq<T>, b: seq<T>, p: T -> bool)
    ensures Filter(a + b, p) == Filter(a, p) + Filter(b, p)
  {
    if a != [] {
      var head := if p(a[0]) then [a[0]] else [];
      assert (a + b)[0] == a[0] && (a + b)[1..] == a[1..] + b;
      FilterConcat(a[1..], b, p);
      calc {
        Filter(a + b, p);
        head + Filter(a[1..] + b, p);
        head + (Filter(a[1..], p) + Filter(b, p));
        (head + Filter(a[1..], p)) + Filter(b, p);
      }
    } else {
      assert a + b == b;
    }
  }

  /** Filtering by one predicate and then another gives what filtering in
      the other order gives. */
  lemma {:induction false} FilterCommute<T(!new)>(s: seq<T>, p: T -> bool, q: T -> bool)
    ensures Filter(Filter(s, p), q) == Filter(Filter(s, q), p)
  {
    if s != [] {
      var x := s[0];
      FilterCommute(s[1..], p, q);
      var hp := if p(x) then [x] else [];
      var hq := if q(x) then [x] else [];
      FilterConcat(hp, Filter(s[1..], p), q);
      FilterConcat(hq, Filter(s[1..], q), p);
      assert [x][1..] == [];
      assert Filter(hp, q) == Filter(hq, p) == if p(x) && q(x) then [x] else [];
    }
  }

  /** A filter whose predicate holds everywhere keeps everything. */
  lemma {:induction false} FilterAll<T(!new)>(s: seq<T>, p: T -> bool)
    requires forall x :: x in s ==> p(x)
    ensures Filter(s, p) == s
  {
    if s != [] {
      assert s[0] in s;
      assert forall x :: x in s[1..] ==> x in s;
      FilterAll(s[1..], p);
    }
  }

  /** Two predicates that never hold together select at most |s| elements
      between them. */
  lemma {:induction false} FilterDisjoint<T(!new)>(s: seq<T>, p: T -> bool, q: T -> bool)
    requires forall x :: x in s ==> !(p(x) && q(x))
    ensures |Filter(s, p)| + |Filter(s, q)| <= |s|
  {
    if s != [] {
      assert s[0] in s;
      assert forall x :: x in s[1..] ==> x in s;
      FilterDisjoint(s[1..], p, q);
    }
  }

  /** No two elements share a key. */
  predicate KeysDistinct<T, K(==)>(s: seq<T>, key: T -> K)
  {
    forall i, j :: 0 <= i < j < |s| ==> key(s[i]) != key(s[j])
  }

  /** A filter keeps the keys of a list distinct if they were. */
  lemma {:induction false} FilterKeepsKeysDistinct<T(!new), K>(s: seq<T>, key: T -> K, p: T -> bool)
    requires KeysDistinct(s, key)
    ensures KeysDistinct(Filter(s, p), key)
  {
    if s != [] {
      var rest := s[1..];
      assert KeysDistinct(rest, key) by {
        forall i, j | 0 <= i < j < |rest| ensures key(rest[i]) != key(rest[j]) {
          assert rest[i] == s[i + 1] && rest[j] == s[j + 1];
        }
      }
      FilterKeepsKeysDistinct(rest, key, p);
      var tail := Filter(rest, p);
      if p(s[0]) {
        var r := [s[0]] + tail;
        forall j | 0 < j < |r| ensures key(r[0]) != key(r[j]) {
          assert r[j] in rest;
          var k :| 0 <= k < |rest| && rest[k] == r[j];
          assert s[k + 1] == r[j];
        }
        forall i, j | 0 <= i < j < |r| ensures key(r[i]) != key(r[j]) {
          if i > 0 { assert r[i] == tail[i - 1] && r[j] == tail[j - 1]; }
        }
      }
    }
  }

  /** `s.reduce((acc, x) => acc + w(x), 0)`. */
  function Sum<T>(s: seq<T>, w: T -> int): int
  {
    if s == [] then 0 else w(s[0]) + Sum(s[1..], w)
  }

  /** Adding an element at the end adds its weight. */
  lemma {:induction false} SumAppend<T>(s: seq<T>, x: T, w: T -> int)
    ensures Sum(s + [x], w) == Sum(s, w) + w(x)
  {
    if s == [] {
      assert [] + [x] == [x];
      assert [x][1..] == [];
    } else {
      assert (s + [x])[1..] == s[1..] + [x];
      SumAppend(s[1..], x, w);
    }
  }

  /** The complement of a predicate. */
  function Not<T>(p: T -> bool): T -> bool
  {
    x => !p(x)
  }

  /** The first element counts in a filtered sum exactly when it passes the
      filter. */
  lemma SumFilterStep<T(!new)>(s: seq<T>, w: T -> int, p: T -> bool)
    requires s != []
    ensures Sum(Filter(s, p), w) == (if p(s[0]) then w(s[0]) else 0) + Sum(Filter(s[1..], p), w)
  {
    var rest := Filter(s[1..], p);
    if p(s[0]) {
      assert Filter(s, p) == [s[0]] + rest;
      assert ([s[0]] + rest)[1..] == rest;
    } else {
      assert Filter(s, p) == [] + rest;
      assert [] + rest == rest;
    }
  }

  /** A sum splits into the part a filter keeps and the part it drops. */
  lemma {:induction false} SumSplit<T(!new)>(s: seq<T>, w: T -> int, p: T -> bool)
    ensures Sum(s, w) == Sum(Filter(s, p), w) + Sum(Filter(s, Not(p)), w)
  {
    if s != [] {
      SumSplit(s[1..], w, p);
      var keep := Filter(s[1..], p);
      var drop := Filter(s[1..], Not(p));
      if p(s[0]) {
        assert Filter(s, p) == [s[0]] + keep;
        assert Filter(s, Not(p)) == drop;
        assert ([s[0]] + keep)[1..] == keep;
      } else {
        assert Filter(s, p) == keep;
        assert Filter(s, Not(p)) == [s[0]] + drop;
        assert ([s[0]] + drop)[1..] == drop;
      }
    }
  }
}
