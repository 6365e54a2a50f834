/**
 The string and list operations the replication statements are built from:
 Python's `str.split`, a `re.sub` that deletes a class of characters, list
 comprehensions (map and filter), flattening, and pandas' `unique()`.
 */
module Text {

  /** `seq` has no duplicate elements. */
  predicate NoDuplicates<T(==)>(s: seq<T>) {
    forall i, j :: 0 <= i < j < |s| ==> s[i] != s[j]
  }

  predicate StartsWith<T(==)>(s: seq<T>, prefix: seq<T>) {
    |prefix| <= |s| && s[..|prefix|] == prefix
  }

  lemma StartsWithAppend<T>(a: seq<T>, b: seq<T>, c: seq<T>)
    requires StartsWith(a, b)
    ensures StartsWith(a + c, b)
  {
    assert (a + c)[..|b|] == a[..|b|];
  }

  /** Python's `s.split(sep)` for a one-character separator: the pieces between
      the separators, always at least one, possibly empty. */
  function Split(s: string, sep: char): (r: seq<string>)
    ensures |r| >= 1
    ensures forall i :: 0 <= i < |r| ==> sep !in r[i]
    decreases |s|
  {
    if s == [] then [[]]
    else
      var rest := Split(s[1..], sep);
      if s[0] == sep then [[]] + rest
      else [[s[0]] + rest[0]] + rest[1..]
  }

  /** There is one more piece than there are separators. */
  lemma {:induction false} SplitCount(s: string, sep: char)
    ensures |Split(s, sep)| == multiset(s)[sep] + 1
    decreases |s|
  {
    if s != [] {
      SplitCount(s[1..], sep);
      assert s == [s[0]] + s[1..];
    }
  }

  /** Python's `sep.join(parts)`. */
  function Join(parts: seq<string>, sep: char): (r: string)
    ensures sep !in r ==> |parts| <= 1
  {
    if |parts| == 0 then []
    else if |parts| == 1 then parts[0]
    else parts[0] + [sep] + Join(parts[1..], sep)
  }

  /** Joining the pieces of a split with the same separator gives back the text. */
  lemma {:induction false} JoinSplit(s: string, sep: char)
    ensures Join(Split(s, sep), sep) == s
    decreases |s|
  {
    if s != [] {
      JoinSplit(s[1..], sep);
      if s[0] == sep {
        JoinSplitAtSeparator(s, sep);
      } else {
        JoinSplitInPiece(s, sep);
      }
    }
  }

  lemma JoinSplitAtSeparator(s: string, sep: char)
    requires s != [] && s[0] == sep
    requires Join(Split(s[1..], sep), sep) == s[1..]
    ensures Join(Split(s, sep), sep) == s
  {
    var rest := Split(s[1..], sep);
    var parts := [[]] + rest;
    assert Split(s, sep) == parts;
    assert parts[0] == [] && parts[1..] == rest;
    assert Join(parts, sep) == [sep] + s[1..];
    assert s == [s[0]] + s[1..];
  }

  lemma JoinSplitInPiece(s: string, sep: char)
    requires s != [] && s[0] != sep
    requires Join(Split(s[1..], sep), sep) == s[1..]
    ensures Join(Split(s, sep), sep) == s
  {
    var rest := Split(s[1..], sep);
    assert Split(s, sep) == [[s[0]] + rest[0]] + rest[1..];
    JoinExtendFirst(s[0], rest, sep);
    assert s == [s[0]] + s[1..];
  }

  lemma JoinExtendFirst(c: char, parts: seq<string>, sep: char)
    requires |parts| >= 1
    ensures Join([[c] + parts[0]] + parts[1..], sep) == [c] + Join(parts, sep)
  {
    var q := [[c] + parts[0]] + parts[1..];
    assert q[0] == [c] + parts[0] && q[1..] == parts[1..];
    if |parts| > 1 {
      calc {
        Join(q, sep);
        q[0] + [sep] + Join(q[1..], sep);
        [c] + (parts[0] + [sep] + Join(parts[1..], sep));
      }
    }
  }

  lemma {:induction false} SplitNoSeparator(p: string, sep: char)
    requires sep !in p
    ensures Split(p, sep) == [p]
    decreases |p|
  {
    if p != [] {
      SplitNoSeparator(p[1..], sep);
      assert [p[0]] + p[1..] == p;
    }
  }

  lemma {:induction false} SplitAfterPiece(p: string, sep: char, t: string)
    requires sep !in p
    ensures Split(p + [sep] + t, sep) == [p] + Split(t, sep)
    decreases |p|
  {
    if p == [] {
      assert p + [sep] + t == [sep] + t;
      assert ([sep] + t)[1..] == t;
    } else {
      var u := p + [sep] + t;
      assert u[1..] == p[1..] + [sep] + t;
      SplitAfterPiece(p[1..], sep, t);
      assert [p[0]] + p[1..] == p;
    }
  }

  /** Splitting the join of separator-free pieces gives back the pieces. */
  lemma {:induction false} SplitJoin(parts: seq<string>, sep: char)
    requires |parts| >= 1
    requires forall i :: 0 <= i < |parts| ==> sep !in parts[i]
    ensures Split(Join(parts, sep), sep) == parts
  {
    if |parts| == 1 {
      SplitNoSeparator(parts[0], sep);
    } else {
      SplitJoin(parts[1..], sep);
      SplitAfterPiece(parts[0], sep, Join(parts[1..], sep));
      assert [parts[0]] + parts[1..] == parts;
    }
  }

  /** `re.sub("[...]*", "", s)`: `s` with every character of `drop` deleted. */
  function RemoveChars(s: string, drop: set<char>): (r: string)
    ensures |r| <= |s|
    ensures forall c :: c in r ==> c !in drop
  {
    if s == [] then [] else (if s[0] in drop then [] else [s[0]]) + RemoveChars(s[1..], drop)
  }

  /** Every character that is not deleted keeps its number of occurrences. */
  lemma {:induction false} RemoveCharsKeepsOthers(s: string, drop: set<char>)
    ensures forall c :: c !in drop ==> multiset(RemoveChars(s, drop))[c] == multiset(s)[c]
  {
    if s != [] {
      RemoveCharsKeepsOthers(s[1..], drop);
      assert s == [s[0]] + s[1..];
    }
  }

  /** Deleting characters adds none. */
  lemma {:induction false} RemoveCharsAbsent(s: string, drop: set<char>, c: char)
    requires c !in s
    ensures c !in RemoveChars(s, drop)
  {
    if s != [] {
      RemoveCharsAbsent(s[1..], drop, c);
      assert s[0] != c;
    }
  }

  lemma {:induction false} RemoveCharsAppend(a: string, b: string, drop: set<char>)
    ensures RemoveChars(a + b, drop) == RemoveChars(a, drop) + RemoveChars(b, drop)
    decreases |a|
  {
    if a != [] {
      assert (a + b)[1..] == a[1..] + b;
      RemoveCharsAppend(a[1..], b, drop);
    } else {
      assert a + b == b;
    }
  }

  /** A list comprehension `[f(x) for x in s]`. */
  function MapSeq<A, B>(f: A -> B, s: seq<A>): (r: seq<B>)
    ensures |r| == |s|
    ensures forall i :: 0 <= i < |s| ==> r[i] == f(s[i])
  {
    if s == [] then [] else [f(s[0])] + MapSeq(f, s[1..])
  }

  /** Mapping one more element appends its image. */
  lemma MapSeqSnoc<A, B>(f: A -> B, s: seq<A>, i: nat)
    requires i < |s|
    ensures MapSeq(f, s[..i + 1]) == MapSeq(f, s[..i]) + [f(s[i])]
  {
    var a, b := MapSeq(f, s[..i]), MapSeq(f, s[..i + 1]);
    forall k | 0 <= k < i ensures b[k] == a[k] {
      assert s[..i + 1][k] == s[..i][k];
    }
    SnocPointwise(a, b, f(s[i]));
  }

  /** A list comprehension `[x for x in s if p(x)]`, order kept. */
  function Filter<T>(p: T -> bool, s: seq<T>): (r: seq<T>)
    ensures |r| <= |s|
    ensures forall i :: 0 <= i < |r| ==> p(r[i]) && r[i] in s
    ensures forall i :: 0 <= i < |s| && p(s[i]) ==> s[i] in r
  {
    if s == [] then []
    else
      assert s == [s[0]] + s[1..];
      (if p(s[0]) then [s[0]] else []) + Filter(p, s[1..])
  }

  lemma {:induction false} FilterAppend<T>(p: T -> bool, a: seq<T>, b: seq<T>)
    ensures Filter(p, a + b) == Filter(p, a) + Filter(p, b)
    decreases |a|
  {
    if a != [] {
      assert (a + b)[1..] == a[1..] + b;
      FilterAppend(p, a[1..], b);
    } else {
      assert a + b == b;
    }
  }

  /** A comprehension keeps each element as often as it occurs, if it passes. */
  lemma {:induction false} FilterMultiplicity<T>(p: T -> bool, s: seq<T>)
    ensures forall x :: multiset(Filter(p, s))[x] == if p(x) then multiset(s)[x] else 0
  {
    if s != [] {
      FilterMultiplicity(p, s[1..]);
      assert s == [s[0]] + s[1..];
    }
  }

  /** A comprehension treats the elements one at a time, in order: the element
      at any position contributes itself or nothing, between the results of the
      elements before it and those after it. */
  lemma FilterRowByRow<T>(p: T -> bool, a: seq<T>, x: T, b: seq<T>)
    ensures Filter(p, a + [x] + b) == Filter(p, a) + (if p(x) then [x] else []) + Filter(p, b)
  {
    var mid: seq<T> := if p(x) then [x] else [];
    assert [x][1..] == [];
    assert Filter(p, [x]) == mid + Filter(p, []);
    assert Filter(p, [x]) == mid;
    FilterAppend(p, a + [x], b);
    FilterAppend(p, a, [x]);
  }

  /** Filtering by a weaker condition first changes nothing. */
  lemma {:induction false} FilterWeakerFirst<T>(p: T -> bool, q: T -> bool, s: seq<T>)
    requires forall x :: p(x) ==> q(x)
    ensures Filter(p, Filter(q, s)) == Filter(p, s)
  {
    if s != [] {
      FilterWeakerFirst(p, q, s[1..]);
      var t := Filter(q, s[1..]);
      if q(s[0]) {
        assert Filter(q, s) == [s[0]] + t;
        assert (Filter(q, s))[1..] == t;
      } else {
        assert Filter(q, s) == t;
        assert Filter(p, s) == Filter(p, s[1..]);
      }
    }
  }

  /** Mapping the kept elements gives one image per kept element and nothing else. */
  lemma MapFilterExactly<A, B>(f: A -> B, p: A -> bool, s: seq<A>)
    ensures forall i :: 0 <= i < |s| && p(s[i]) ==> f(s[i]) in MapSeq(f, Filter(p, s))
    ensures forall y :: y in MapSeq(f, Filter(p, s)) ==> exists x :: x in s && p(x) && y == f(x)
  {
    var kept := Filter(p, s);
    var r := MapSeq(f, kept);
    forall i | 0 <= i < |s| && p(s[i]) ensures f(s[i]) in r {
      var k :| 0 <= k < |kept| && kept[k] == s[i];
      assert r[k] == f(s[i]);
    }
    forall y | y in r ensures exists x :: x in s && p(x) && y == f(x) {
      var k :| 0 <= k < |r| && r[k] == y;
      assert kept[k] in s && p(kept[k]);
    }
  }

  lemma {:induction false} MapSeqAppend<A, B>(f: A -> B, a: seq<A>, b: seq<A>)
    ensures MapSeq(f, a + b) == MapSeq(f, a) + MapSeq(f, b)
    decreases |a|
  {
    if a != [] {
      assert (a + b)[1..] == a[1..] + b;
      MapSeqAppend(f, a[1..], b);
    } else {
      assert a + b == b;
    }
  }

  /** Mapping the kept elements, row by row: the element at any position
      contributes its image or nothing, in its place. */
  lemma MapFilterRowByRow<A, B>(f: A -> B, p: A -> bool, a: seq<A>, x: A, b: seq<A>)
    ensures MapSeq(f, Filter(p, a + [x] + b))
         == MapSeq(f, Filter(p, a)) + (if p(x) then [f(x)] else []) + MapSeq(f, Filter(p, b))
  {
    var mid: seq<A> := if p(x) then [x] else [];
    FilterRowByRow(p, a, x, b);
    MapSeqAppend(f, Filter(p, a) + mid, Filter(p, b));
    MapSeqAppend(f, Filter(p, a), mid);
    assert MapSeq(f, mid) == (if p(x) then [f(x)] else []);
  }

  lemma SnocPointwise<T>(a: seq<T>, b: seq<T>, x: T)
    requires |b| == |a| + 1 && b[|a|] == x
    requires forall k :: 0 <= k < |a| ==> b[k] == a[k]
    ensures b == a + [x]
  {
  }

  lemma AppendAssoc<T>(a: seq<T>, b: seq<T>, c: seq<T>)
    ensures a + b + c == a + (b + c)
  {
  }

  /** Appending four parts one after another is appending their concatenation. */
  lemma AppendFour<T>(x: seq<T>, a: seq<T>, b: seq<T>, c: seq<T>, d: seq<T>)
    ensures x + a + b + c + d == x + (a + b + c + d)
  {
    AppendAssoc(x, a, b);
    AppendAssoc(x, a + b, c);
    AppendAssoc(x, a + b + c, d);
  }

  /** Appending six parts one after another, grouped as the first, the next
      three and the last two. */
  lemma AppendSix<T>(x: seq<T>, a: seq<T>, b: seq<T>, c: seq<T>, d: seq<T>, e: seq<T>, f: seq<T>)
    ensures x + a + b + c + d + e + f == x + (a + (b + c + d) + (e + f))
  {
    AppendFour(x + a, b, c, d, e);
    AppendAssoc(x + a + (b + c + d), e, f);
    AppendAssoc(x, a, b + c + d);
    AppendAssoc(x, a + (b + c + d), e + f);
  }

  /** Every element of a concatenation satisfies what every element of both parts satisfies. */
  lemma AllAppend<T>(a: seq<T>, b: seq<T>, p: T -> bool)
    requires forall i :: 0 <= i < |a| ==> p(a[i])
    requires forall i :: 0 <= i < |b| ==> p(b[i])
    ensures forall i :: 0 <= i < |a + b| ==> p((a + b)[i])
  {
    assert forall i :: |a| <= i < |a + b| ==> (a + b)[i] == b[i - |a|];
  }

  /** A concatenation of three parts, where every element of the second part
      satisfies `p` and every element of the third satisfies `q`. */
  lemma ConcatParts<T>(a: seq<T>, b: seq<T>, c: seq<T>, p: T -> bool, q: T -> bool)
    requires forall i :: 0 <= i < |b| ==> p(b[i])
    requires forall i :: 0 <= i < |c| ==> q(c[i])
    ensures (a + b + c)[..|a|] == a
    ensures forall i :: |a| <= i < |a| + |b| ==> p((a + b + c)[i])
    ensures forall i :: |a| + |b| <= i < |a + b + c| ==> q((a + b + c)[i])
  {
    var s := a + b + c;
    assert forall i :: |a| <= i < |a| + |b| ==> s[i] == b[i - |a|];
    assert forall i :: |a| + |b| <= i < |s| ==> s[i] == c[i - |a| - |b|];
  }

  /** Concatenation of a list of lists, in order. */
  function Flatten<T>(ss: seq<seq<T>>): seq<T> {
    if ss == [] then [] else ss[0] + Flatten(ss[1..])
  }

  lemma FlattenCons<T>(h: seq<T>, t: seq<seq<T>>)
    ensures Flatten([h] + t) == h + Flatten(t)
  {
    assert ([h] + t)[1..] == t;
  }

  lemma FlattenSnoc<T>(ss: seq<seq<T>>, t: seq<T>)
    ensures Flatten(ss + [t]) == Flatten(ss) + t
  {
    FlattenAppend(ss, [t]);
    FlattenCons(t, []);
    assert [t] + [] == [t];
  }

  lemma {:induction false} FlattenAppend<T>(a: seq<seq<T>>, b: seq<seq<T>>)
    ensures Flatten(a + b) == Flatten(a) + Flatten(b)
    decreases |a|
  {
    if a == [] {
      assert a + b == b;
    } else {
      var t := a[1..];
      assert a + b == [a[0]] + (t + b);
      FlattenCons(a[0], t + b);
      FlattenAppend(t, b);
    }
  }

  /** The suffix from `k` flattens to its first list and then the rest. */
  lemma FlattenFrom<T>(ss: seq<seq<T>>, k: nat)
    requires k < |ss|
    ensures Flatten(ss[k..]) == ss[k] + Flatten(ss[k + 1..])
  {
    assert ss[k..][1..] == ss[k + 1..];
  }

  /** Flattening the first `i` lists and then the rest is flattening the whole. */
  lemma FlattenSplit<T>(ss: seq<seq<T>>, i: nat)
    requires i <= |ss|
    ensures Flatten(ss) == Flatten(ss[..i]) + Flatten(ss[i..])
  {
    assert ss == ss[..i] + ss[i..];
    FlattenAppend(ss[..i], ss[i..]);
  }

  /** Flattening one more list appends it. */
  lemma FlattenPrefixSnoc<T>(ss: seq<seq<T>>, i: nat)
    requires i < |ss|
    ensures Flatten(ss[..i + 1]) == Flatten(ss[..i]) + ss[i]
  {
    var upto := ss[..i + 1];
    assert upto == ss[..i] + [ss[i]];
    FlattenSnoc(ss[..i], ss[i]);
  }

  /** The `i`-th list sits in the flattening right after the lists before it. */
  lemma FlattenPlaces<T>(ss: seq<seq<T>>, i: nat)
    requires i < |ss|
    ensures Flatten(ss) == Flatten(ss[..i]) + ss[i] + Flatten(ss[i + 1..])
  {
    FlattenSplit(ss, i);
    FlattenFrom(ss, i);
    AppendAssoc(Flatten(ss[..i]), ss[i], Flatten(ss[i + 1..]));
  }

  /** Filling in a list that was empty inserts its contents at a fixed offset. */
  lemma FlattenFillEmpty<T>(ss: seq<seq<T>>, k: nat, c: seq<T>)
    requires k < |ss| && ss[k] == []
    ensures var off := |Flatten(ss[..k])|;
            off <= |Flatten(ss)| &&
            Flatten(ss[k := c]) == Flatten(ss)[..off] + c + Flatten(ss)[off..]
  {
    var tt := ss[k := c];
    var pre, post := Flatten(ss[..k]), Flatten(ss[k + 1..]);
    FlattenPlaces(ss, k);
    assert Flatten(ss) == pre + post;
    assert Flatten(tt) == pre + c + post by {
      FlattenPlaces(tt, k);
      assert tt[..k] == ss[..k] && tt[k + 1..] == ss[k + 1..];
    }
    assert Flatten(ss)[..|pre|] == pre;
    assert Flatten(ss)[|pre|..] == post;
  }

  /** `t` occurs in `s` as a contiguous piece. */
  predicate Contains<T(==)>(s: seq<T>, t: seq<T>)
    decreases |s|
  {
    StartsWith(s, t) || (s != [] && Contains(s[1..], t))
  }

  lemma {:induction false} ContainsMiddle<T>(a: seq<T>, t: seq<T>, b: seq<T>)
    ensures Contains(a + t + b, t)
    decreases |a|
  {
    if a == [] {
      assert a + t + b == t + b;
      assert (t + b)[..|t|] == t;
    } else {
      assert (a + t + b)[1..] == a[1..] + t + b;
      ContainsMiddle(a[1..], t, b);
    }
  }

  /** Every list being flattened occurs in the flattening. */
  lemma FlattenContains<T>(ss: seq<seq<T>>, k: nat)
    requires k < |ss|
    ensures Contains(Flatten(ss), ss[k])
  {
    var a, b := Flatten(ss[..k]), Flatten(ss[k + 1..]);
    FlattenSplit(ss, k);
    assert ss[k..] == [ss[k]] + ss[k + 1..];
    FlattenCons(ss[k], ss[k + 1..]);
    assert Flatten(ss) == a + ss[k] + b;
    ContainsMiddle(a, ss[k], b);
  }

  /** Index of the first occurrence of `x` in `s`. */
  function FirstIndex<T(==)>(s: seq<T>, x: T): (k: nat)
    requires x in s
    ensures k < |s| && s[k] == x
    ensures forall j :: 0 <= j < k ==> s[j] != x
  {
    if s[0] == x then 0 else 1 + FirstIndex(s[1..], x)
  }

  lemma FirstIndexInPrefix<T>(s: seq<T>, n: nat, x: T)
    requires n <= |s| && x in s[..n]
    ensures FirstIndex(s, x) == FirstIndex(s[..n], x) < n
  {
    var k := FirstIndex(s[..n], x);
    var m := FirstIndex(s, x);
    assert s[..n][k] == s[k];
  }

  /** `r` lists the distinct elements of `s`, each once, in order of first occurrence. */
  predicate UniqueOf<T(==)>(s: seq<T>, r: seq<T>) {
    (forall i :: 0 <= i < |r| ==> r[i] in s)
    && (forall i :: 0 <= i < |s| ==> s[i] in r)
    && NoDuplicates(r)
    && (forall i, j :: 0 <= i < j < |r| ==> FirstIndex(s, r[i]) < FirstIndex(s, r[j]))
  }

  /** pandas' `Series.unique()`: each element once, in order of first occurrence. */
  function Unique<T(==)>(s: seq<T>): (r: seq<T>)
    ensures forall i :: 0 <= i < |r| ==> r[i] in s
    ensures forall i :: 0 <= i < |s| ==> s[i] in r
    ensures NoDuplicates(r)
    ensures forall i, j :: 0 <= i < j < |r| ==> FirstIndex(s, r[i]) < FirstIndex(s, r[j])
  {
    if s == [] then []
    else
      var t := s[..|s| - 1];
      var u := Unique(t);
      assert s == t + [s[|s| - 1]];
      var x := s[|s| - 1];
      if x in u then UniqueStepSeen(t, x, u); u
      else UniqueStepNew(t, x, u); u + [x]
  }

  /** Appending an element leaves earlier first occurrences where they were. */
  lemma UniqueStepIndices<T>(t: seq<T>, x: T, u: seq<T>)
    requires forall i :: 0 <= i < |u| ==> u[i] in t
    ensures forall i :: 0 <= i < |u| ==> FirstIndex(t + [x], u[i]) == FirstIndex(t, u[i]) < |t|
  {
    var s := t + [x];
    assert s[..|t|] == t;
    forall i | 0 <= i < |u| ensures FirstIndex(s, u[i]) == FirstIndex(t, u[i]) < |t| {
      FirstIndexInPrefix(s, |t|, u[i]);
    }
  }

  /** An element already seen adds nothing. */
  lemma UniqueStepSeen<T>(t: seq<T>, x: T, u: seq<T>)
    requires UniqueOf(t, u) && x in u
    ensures UniqueOf(t + [x], u)
  {
    UniqueStepIndices(t, x, u);
    var s := t + [x];
    assert forall i :: 0 <= i < |s| ==> s[i] in u by {
      forall i | 0 <= i < |s| ensures s[i] in u {
        if i < |t| { assert s[i] == t[i]; }
      }
    }
  }

  /** A new element is appended, after every element seen before it. */
  lemma UniqueStepNew<T>(t: seq<T>, x: T, u: seq<T>)
    requires UniqueOf(t, u) && x !in u
    ensures UniqueOf(t + [x], u + [x])
  {
    var s, r := t + [x], u + [x];
    assert forall i :: 0 <= i < |s| ==> s[i] in r by {
      forall i | 0 <= i < |s| ensures s[i] in r {
        if i < |t| { assert s[i] == t[i]; }
      }
    }
    UniqueStepNewOrder(t, x, u);
  }

  lemma UniqueStepNewOrder<T>(t: seq<T>, x: T, u: seq<T>)
    requires UniqueOf(t, u) && x !in u
    ensures forall i, j :: 0 <= i < j < |u| + 1 ==> FirstIndex(t + [x], (u + [x])[i]) < FirstIndex(t + [x], (u + [x])[j])
  {
    UniqueStepIndices(t, x, u);
    var s, r := t + [x], u + [x];
    assert x !in t;
    assert FirstIndex(s, x) == |t|;
    forall i, j | 0 <= i < j < |r| ensures FirstIndex(s, r[i]) < FirstIndex(s, r[j]) {
      assert r[i] == u[i];
      if j < |u| { assert r[j] == u[j]; } else { assert r[j] == x; }
    }
  }

  /** The distinct kept elements follow the order of their first occurrences
      in the unfiltered sequence. */
  lemma FilterUniqueOrder<T>(p: T -> bool, s: seq<T>, r: seq<T>)
    requires r == Unique(Filter(p, s))
    ensures forall i, j :: 0 <= i < j < |r| ==> r[i] in s && r[j] in s && FirstIndex(s, r[i]) < FirstIndex(s, r[j])
  {
    forall i, j | 0 <= i < j < |r| ensures r[i] in s && r[j] in s && FirstIndex(s, r[i]) < FirstIndex(s, r[j]) {
      FilterKeepsFirstOrder(p, s, r[i], r[j]);
    }
  }

  /** Removing elements keeps the first occurrences of the rest in their order. */
  lemma {:induction false} FilterKeepsFirstOrder<T>(p: T -> bool, s: seq<T>, x: T, y: T)
    requires x in Filter(p, s) && y in Filter(p, s)
    requires FirstIndex(Filter(p, s), x) < FirstIndex(Filter(p, s), y)
    ensures FirstIndex(s, x) < FirstIndex(s, y)
  {
    var f := Filter(p, s);
    var t := Filter(p, s[1..]);
    assert f == (if p(s[0]) then [s[0]] else []) + t;
    if s[0] == x {
    } else if s[0] == y {
      assert false;
    } else {
      if p(s[0]) {
        assert f[0] != x && f[0] != y;
        assert f[1..] == t;
        assert x in t && y in t;
        assert FirstIndex(f, x) == 1 + FirstIndex(t, x);
        assert FirstIndex(f, y) == 1 + FirstIndex(t, y);
      } else {
        assert f == t;
      }
      FilterKeepsFirstOrder(p, s[1..], x, y);
    }
  }
}
