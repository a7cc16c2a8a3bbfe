/** `Array.prototype.sort`: a stable sort by a consistent comparison. Any two stable sorts agree, so an
    insertion sort stands for whichever algorithm the engine uses. */
module StableSort {

  ghost predicate TotalPreorder<T(!new)>(le: (T, T) -> bool) {
    && (forall x, y :: le(x, y) || le(y, x))
    && (forall x, y, z :: le(x, y) && le(y, z) ==> le(x, z))
  }

  ghost predicate Sorted<T(!new)>(le: (T, T) -> bool, s: seq<T>) {
    forall i, j | 0 <= i < j < |s| :: le(s[i], s[j])
  }

  function Insert<T>(le: (T, T) -> bool, x: T, s: seq<T>): seq<T> {
    if s == [] || le(x, s[0]) then [x] + s else [s[0]] + Insert(le, x, s[1..])
  }

  function Sort<T>(le: (T, T) -> bool, s: seq<T>): seq<T> {
    if s == [] then [] else Insert(le, s[0], Sort(le, s[1..]))
  }

  lemma {:induction false} InsertAdds<T>(le: (T, T) -> bool, x: T, s: seq<T>)
    ensures multiset(Insert(le, x, s)) == multiset(s) + multiset{x}
  {
    if s != [] {
      assert s == [s[0]] + s[1..];
      if !le(x, s[0]) {
        InsertAdds(le, x, s[1..]);
      }
    }
  }

  lemma {:induction false} SortPermutes<T>(le: (T, T) -> bool, s: seq<T>)
    ensures multiset(Sort(le, s)) == multiset(s)
    ensures |Sort(le, s)| == |s|
  {
    if s != [] {
      SortPermutes(le, s[1..]);
      InsertAdds(le, s[0], Sort(le, s[1..]));
      assert s == [s[0]] + s[1..];
    }
    assert |multiset(Sort(le, s))| == |Sort(le, s)|;
  }

  lemma SameMembers<T>(s: seq<T>, t: seq<T>)
    requires multiset(s) == multiset(t)
    ensures forall x :: x in s <==> x in t
    ensures |s| == |t|
  {
    forall x ensures x in s <==> x in t {
      assert x in s <==> x in multiset(s);
      assert x in t <==> x in multiset(t);
    }
    assert |multiset(s)| == |multiset(t)|;
  }

  lemma {:induction false} InsertSorts<T(!new)>(le: (T, T) -> bool, x: T, s: seq<T>)
    requires TotalPreorder(le) && Sorted(le, s)
    ensures Sorted(le, Insert(le, x, s))
  {
    if s != [] && !le(x, s[0]) {
      InsertSorts(le, x, s[1..]);
      InsertAdds(le, x, s[1..]);
      SameMembers(Insert(le, x, s[1..]), s[1..] + [x]);
      var r := Insert(le, x, s[1..]);
      forall k | 0 <= k < |r| ensures le(s[0], r[k]) {
        assert r[k] in s[1..] + [x];
      }
    }
  }

  lemma {:induction false} SortSorts<T(!new)>(le: (T, T) -> bool, s: seq<T>)
    requires TotalPreorder(le)
    ensures Sorted(le, Sort(le, s))
  {
    if s != [] {
      SortSorts(le, s[1..]);
      InsertSorts(le, s[0], Sort(le, s[1..]));
    }
  }

  /** The comparison tells the elements of `s` apart. */
  ghost predicate Separates<T(!new)>(le: (T, T) -> bool, s: seq<T>) {
    forall x, y | x in s && y in s && le(x, y) && le(y, x) :: x == y
  }

  lemma SortedHead<T(!new)>(le: (T, T) -> bool, s: seq<T>, x: T)
    requires Sorted(le, s) && x in s
    ensures x == s[0] || le(s[0], x)
  {
  }

  lemma TailMultiset<T>(s: seq<T>, t: seq<T>)
    requires s != [] && t != [] && s[0] == t[0] && multiset(s) == multiset(t)
    ensures multiset(s[1..]) == multiset(t[1..])
  {
    assert s == [s[0]] + s[1..] && t == [t[0]] + t[1..];
    assert multiset(s[1..]) == multiset(s) - multiset{s[0]};
    assert multiset(t[1..]) == multiset(t) - multiset{t[0]};
  }

  lemma {:induction false} SortedIsUnique<T(!new)>(le: (T, T) -> bool, s: seq<T>, t: seq<T>)
    requires Sorted(le, s) && Sorted(le, t) && multiset(s) == multiset(t)
    requires Separates(le, s)
    ensures s == t
  {
    SameMembers(s, t);
    if s != [] {
      SortedHead(le, s, t[0]);
      SortedHead(le, t, s[0]);
      TailMultiset(s, t);
      assert Sorted(le, s[1..]) && Sorted(le, t[1..]) && Separates(le, s[1..]);
      SortedIsUnique(le, s[1..], t[1..]);
      assert s == [s[0]] + s[1..] && t == [t[0]] + t[1..];
    }
  }

  /** Sorting forgets the order of the input as far as the comparison separates its elements. */
  lemma SortIgnoresOrder<T(!new)>(le: (T, T) -> bool, s: seq<T>, t: seq<T>)
    requires TotalPreorder(le) && multiset(s) == multiset(t) && Separates(le, s)
    ensures Sort(le, s) == Sort(le, t)
  {
    SortPermutes(le, s);
    SortPermutes(le, t);
    SortSorts(le, s);
    SortSorts(le, t);
    SameMembers(s, Sort(le, s));
    SortedIsUnique(le, Sort(le, s), Sort(le, t));
  }

  /** Sequences without repetition and with the same elements are permutations of each other. */
  lemma {:induction false} SameSetSameMultiset<T>(s: seq<T>, t: seq<T>)
    requires forall i, j | 0 <= i < j < |s| :: s[i] != s[j]
    requires forall i, j | 0 <= i < j < |t| :: t[i] != t[j]
    requires forall x :: x in s <==> x in t
    ensures multiset(s) == multiset(t)
  {
    forall x ensures multiset(s)[x] == multiset(t)[x] {
      OnceEach(s, x);
      OnceEach(t, x);
    }
  }

  lemma {:induction false} OnceEach<T>(s: seq<T>, x: T)
    requires forall i, j | 0 <= i < j < |s| :: s[i] != s[j]
    ensures multiset(s)[x] == if x in s then 1 else 0
  {
    if s != [] {
      OnceEach(s[1..], x);
      assert s == [s[0]] + s[1..];
    }
  }

  /** Elements the comparison does not tell apart come out in the order they went in. */
  ghost predicate Precedes<T>(s: seq<T>, x: T, y: T) {
    exists i, j :: 0 <= i < j < |s| && s[i] == x && s[j] == y
  }

  lemma {:induction false} InsertKeepsOrder<T>(le: (T, T) -> bool, z: T, s: seq<T>, x: T, y: T)
    requires Precedes(s, x, y)
    ensures Precedes(Insert(le, z, s), x, y)
  {
    var i, j :| 0 <= i < j < |s| && s[i] == x && s[j] == y;
    var r := Insert(le, z, s);
    if le(z, s[0]) {
      assert r[i + 1] == x && r[j + 1] == y;
    } else if i == 0 {
      InsertAdds(le, z, s[1..]);
      SameMembers(Insert(le, z, s[1..]), s[1..] + [z]);
      assert (s[1..] + [z])[j - 1] == y;
      assert y in Insert(le, z, s[1..]);
      var k :| 0 <= k < |Insert(le, z, s[1..])| && Insert(le, z, s[1..])[k] == y;
      assert r[0] == x && r[k + 1] == y;
    } else {
      assert s[1..][i - 1] == x && s[1..][j - 1] == y;
      InsertKeepsOrder(le, z, s[1..], x, y);
      var p, q :| 0 <= p < q < |Insert(le, z, s[1..])| && Insert(le, z, s[1..])[p] == x && Insert(le, z, s[1..])[q] == y;
      assert r[p + 1] == x && r[q + 1] == y;
    }
  }

  lemma {:induction false} InsertGoesFirst<T>(le: (T, T) -> bool, x: T, s: seq<T>, y: T)
    requires y in s && le(x, y)
    ensures Precedes(Insert(le, x, s), x, y)
  {
    var r := Insert(le, x, s);
    if le(x, s[0]) {
      var k :| 0 <= k < |s| && s[k] == y;
      assert r[0] == x && r[k + 1] == y;
    } else {
      InsertGoesFirst(le, x, s[1..], y);
      var p, q :| 0 <= p < q < |Insert(le, x, s[1..])| && Insert(le, x, s[1..])[p] == x && Insert(le, x, s[1..])[q] == y;
      assert r[p + 1] == x && r[q + 1] == y;
    }
  }

  lemma {:induction false} SortIsStable<T>(le: (T, T) -> bool, s: seq<T>, i: nat, j: nat)
    requires i < j < |s| && le(s[i], s[j])
    ensures Precedes(Sort(le, s), s[i], s[j])
  {
    if i == 0 {
      SortPermutes(le, s[1..]);
      SameMembers(Sort(le, s[1..]), s[1..]);
      assert s[1..][j - 1] == s[j];
      InsertGoesFirst(le, s[0], Sort(le, s[1..]), s[j]);
    } else {
      SortIsStable(le, s[1..], i - 1, j - 1);
      InsertKeepsOrder(le, s[0], Sort(le, s[1..]), s[i], s[j]);
    }
  }
}
