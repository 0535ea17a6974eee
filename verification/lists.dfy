/**
 * Generic sequence operations that the views build their lists with:
 * `Array.prototype.filter` and the order-preservation facts about it.
 */
module Lists {
  import opened Wrappers

  /** `a` is obtained from `b` by deleting elements: same relative order. */
  ghost predicate Subsequence<T>(a: seq<T>, b: seq<T>)
    decreases |b|
  {
    if a == [] then true
    else if b == [] then false
    else if a[0] == b[0] then Subsequence(a[1..], b[1..])
    else Subsequence(a, b[1..])
  }

  /** One more element in front of `b` keeps `a` a subsequence of it. */
  lemma {:induction false} SubsequenceWiden<T>(a: seq<T>, b: seq<T>)
    requires b != [] && Subsequence(a, b[1..])
    ensures Subsequence(a, b)
    decreases |b|, 0
  {
    if a != [] && a[0] == b[0] {
      SubsequenceDropFirst(a, b[1..]);
    }
  }

  /** Dropping the first element of a subsequence leaves a subsequence. */
  lemma {:induction false} SubsequenceDropFirst<T>(a: seq<T>, b: seq<T>)
    requires a != [] && Subsequence(a, b)
    ensures Subsequence(a[1..], b)
    decreases |b|, 1
  {
    if a[0] == b[0] {
      SubsequenceWiden(a[1..], b);
    } else {
      SubsequenceDropFirst(a, b[1..]);
      SubsequenceWiden(a[1..], b);
    }
  }

  /** Every sequence is a subsequence of itself. */
  lemma {:induction false} SubsequenceOfSelf<T>(s: seq<T>)
    ensures Subsequence(s, s)
  {
    if s != [] {
      SubsequenceOfSelf(s[1..]);
    }
  }

  /** Deleting elements twice is deleting elements once. */
  lemma {:induction false} SubsequenceTransitive<T>(a: seq<T>, b: seq<T>, c: seq<T>)
    requires Subsequence(a, b) && Subsequence(b, c)
    ensures Subsequence(a, c)
    decreases |c|
  {
    if a != [] {
      if b[0] == c[0] {
        if a[0] == b[0] {
          SubsequenceTransitive(a[1..], b[1..], c[1..]);
        } else {
          SubsequenceTransitive(a, b[1..], c[1..]);
          SubsequenceWiden(a, c);
        }
      } else {
        SubsequenceTransitive(a, b, c[1..]);
        SubsequenceWiden(a, c);
      }
    }
  }

  /** The elements of `s` that satisfy `p`, in their original order (`s.filter(p)`). */
  function Filter<T(!new)>(s: seq<T>, p: T -> bool): (r: seq<T>)
    ensures |r| <= |s|
    ensures forall x :: x in r <==> x in s && p(x)
    ensures forall x :: multiset(r)[x] == if p(x) then multiset(s)[x] else 0
    ensures Subsequence(r, s)
  {
    if s == [] then []
    else
      var rest := Filter(s[1..], p);
      assert s == [s[0]] + s[1..];
      if p(s[0]) then [s[0]] + rest else rest
  }

  /** `s.map(x => p(x) ? f(x) : x)`: rewrite the elements that satisfy `p`, leave the rest. */
  function MapIf<T>(s: seq<T>, p: T -> bool, f: T -> T): (r: seq<T>)
    ensures |r| == |s|
    ensures forall i :: 0 <= i < |s| ==> r[i] == if p(s[i]) then f(s[i]) else s[i]
  {
    seq(|s|, i requires 0 <= i < |s| => if p(s[i]) then f(s[i]) else s[i])
  }

  /** The values of `p` and `q` are complementary, so the two filters split `s`. */
  lemma {:induction false} FilterSplit<T(!new)>(s: seq<T>, p: T -> bool, q: T -> bool)
    requires forall x :: q(x) == !p(x)
    ensures |Filter(s, p)| + |Filter(s, q)| == |s|
  {
    if s != [] {
      FilterSplit(s[1..], p, q);
    }
  }

  /** A stronger predicate keeps no more elements. */
  lemma {:induction false} FilterMonotone<T(!new)>(s: seq<T>, p: T -> bool, q: T -> bool)
    requires forall x :: p(x) ==> q(x)
    ensures |Filter(s, p)| <= |Filter(s, q)|
  {
    if s != [] {
      FilterMonotone(s[1..], p, q);
    }
  }

  /** Filtering with a predicate every element satisfies changes nothing. */
  lemma {:induction false} FilterKeepsAll<T(!new)>(s: seq<T>, p: T -> bool)
    requires forall i :: 0 <= i < |s| ==> p(s[i])
    ensures Filter(s, p) == s
  {
    if s != [] {
      FilterKeepsAll(s[1..], p);
    }
  }

  lemma AppendAssoc<T>(a: seq<T>, b: seq<T>, c: seq<T>)
    ensures a + (b + c) == (a + b) + c
  {
  }

  /** A slice of the second half of `a + b` is a slice of `b`. */
  lemma SliceOfSecond<T>(a: seq<T>, b: seq<T>, lo: nat, hi: nat)
    requires lo <= hi <= |b|
    ensures (a + b)[|a| + lo..|a| + hi] == b[lo..hi]
  {
  }

  /** Filtering a sequence with a known first element. */
  lemma FilterCons<T(!new)>(a: T, s: seq<T>, p: T -> bool)
    ensures Filter([a] + s, p) == (if p(a) then [a] else []) + Filter(s, p)
  {
    assert ([a] + s)[1..] == s;
  }

  /** Filtering distributes over appending one element. */
  lemma {:induction false} FilterAppend<T(!new)>(s: seq<T>, x: T, p: T -> bool)
    ensures Filter(s + [x], p) == Filter(s, p) + if p(x) then [x] else []
  {
    if s == [] {
      assert s + [x] == [x];
    } else {
      var a, rest := s[0], s[1..];
      assert s == [a] + rest;
      assert s + [x] == [a] + (rest + [x]);
      FilterCons(a, rest + [x], p);
      FilterCons(a, rest, p);
      FilterAppend(rest, x, p);
      var head, tail := (if p(a) then [a] else []), (if p(x) then [x] else []);
      assert Filter(s + [x], p) == head + Filter(rest + [x], p);
      assert Filter(rest + [x], p) == Filter(rest, p) + tail;
      assert Filter(s, p) == head + Filter(rest, p);
      AppendAssoc(head, Filter(rest, p), tail);
    }
  }

  /** Filtering distributes over concatenation. */
  lemma {:induction false} FilterConcat<T(!new)>(a: seq<T>, b: seq<T>, p: T -> bool)
    ensures Filter(a + b, p) == Filter(a, p) + Filter(b, p)
  {
    if b == [] {
      assert a + b == a;
    } else {
      var c, x := b[..|b| - 1], b[|b| - 1];
      assert b == c + [x];
      assert a + b == (a + c) + [x];
      FilterAppend(a + c, x, p);
      FilterAppend(c, x, p);
      FilterConcat(a, c, p);
      AppendAssoc(Filter(a, p), Filter(c, p), if p(x) then [x] else []);
    }
  }

  /** The positions of `s` whose element satisfies `p`. */
  ghost function Positions<T>(s: seq<T>, p: T -> bool): set<int> {
    set i | 0 <= i < |s| && p(s[i])
  }

  /** Appending an element adds its position exactly when it satisfies `p`. */
  lemma PositionsAppend<T>(t: seq<T>, x: T, p: T -> bool)
    ensures |Positions(t + [x], p)| == |Positions(t, p)| + if p(x) then 1 else 0
  {
    var s := t + [x];
    if p(x) {
      assert Positions(s, p) == Positions(t, p) + {|t|};
    } else {
      assert Positions(s, p) == Positions(t, p);
    }
  }

  /** Filtering a sequence with one element put in the middle. */
  lemma FilterInsert<T(!new)>(a: seq<T>, x: T, b: seq<T>, p: T -> bool)
    ensures Filter(a + [x] + b, p) == Filter(a, p) + (if p(x) then [x] else []) + Filter(b, p)
  {
    FilterConcat(a + [x], b, p);
    FilterAppend(a, x, p);
  }

  /**
   * Putting `x` at `j` adds it to the end of the filtered sequence when it
   * passes and nothing after position `j` does.
   */
  lemma FilterInsertAt<T(!new)>(s: seq<T>, j: int, x: T, p: T -> bool)
    requires 0 <= j <= |s|
    requires p(x) ==> forall k :: j <= k < |s| ==> !p(s[k])
    ensures Filter(s[..j] + [x] + s[j..], p) == Filter(s, p) + if p(x) then [x] else []
  {
    var a, b := s[..j], s[j..];
    assert s == a + b;
    FilterInsert(a, x, b, p);
    FilterConcat(a, b, p);
    if p(x) {
      forall i | 0 <= i < |b| ensures !p(b[i]) {
        assert b[i] == s[j + i];
      }
      FilterNone(b, p);
      assert Filter(s, p) == Filter(a, p);
    } else {
      assert Filter(a, p) + [] == Filter(a, p);
    }
  }

  /** Nothing passes the filter when no element satisfies it. */
  lemma {:induction false} FilterNone<T(!new)>(s: seq<T>, p: T -> bool)
    requires forall i :: 0 <= i < |s| ==> !p(s[i])
    ensures Filter(s, p) == []
  {
    if s != [] {
      FilterNone(s[1..], p);
    }
  }

  /** `s.filter(p).length` counts the positions of `s` whose element satisfies `p`. */
  lemma {:induction false} FilterCount<T(!new)>(s: seq<T>, p: T -> bool)
    ensures |Filter(s, p)| == |Positions(s, p)|
  {
    if s != [] {
      var t, x := s[..|s| - 1], s[|s| - 1];
      assert s == t + [x];
      FilterAppend(t, x, p);
      FilterCount(t, p);
      PositionsAppend(t, x, p);
    }
  }

  /** `s.filter((_, i) => i !== index)`: drop the element at `index`, if there is one. */
  function RemoveAt<T>(s: seq<T>, index: int): (r: seq<T>)
    ensures 0 <= index < |s| ==> r == s[..index] + s[index + 1..]
    ensures !(0 <= index < |s|) ==> r == s
  {
    if s == [] then []
    else
      var rest := RemoveAt(s[1..], index - 1);
      assert s == [s[0]] + s[1..];
      if index == 0 then rest else [s[0]] + rest
  }

  /** The position of the last element of `s` that satisfies `p`, or -1 when none does. */
  function LastIndex<T>(s: seq<T>, p: T -> bool): (k: int)
    ensures -1 <= k < |s|
    ensures k >= 0 ==> p(s[k])
    ensures forall j :: k < j < |s| ==> !p(s[j])
  {
    if s == [] then -1
    else if p(s[|s| - 1]) then |s| - 1
    else
      var k := LastIndex(s[..|s| - 1], p);
      assert forall j :: k < j < |s| - 1 ==> s[..|s| - 1][j] == s[j];
      k
  }

  /**
   * Scans `s` in order, remembering each element that satisfies `p`: the last
   * match, or `start` when nothing matches.
   */
  function LastMatch<T>(s: seq<T>, p: T -> bool, start: Option<T>): (r: Option<T>)
    ensures (forall i :: 0 <= i < |s| ==> !p(s[i])) ==> r == start
    ensures (exists i :: 0 <= i < |s| && p(s[i])) ==>
      exists k :: 0 <= k < |s| && r == Some(s[k]) && p(s[k]) && forall j :: k < j < |s| ==> !p(s[j])
  {
    var k := LastIndex(s, p);
    if k < 0 then start else Some(s[k])
  }

  /** `s.indexOf(x)` for a value that occurs: its first position. */
  function IndexOf<T(==)>(s: seq<T>, x: T): (k: nat)
    requires x in s
    ensures k < |s| && s[k] == x
    ensures forall j :: 0 <= j < k ==> s[j] != x
  {
    if s[0] == x then 0 else 1 + IndexOf(s[1..], x)
  }

  /** Appending leaves the first position of a value already present where it was. */
  lemma IndexOfAppend<T>(s: seq<T>, y: T, x: T)
    requires x in s
    ensures IndexOf(s + [y], x) == IndexOf(s, x)
  {
    var k := IndexOf(s, x);
    assert (s + [y])[k] == x;
  }
}
