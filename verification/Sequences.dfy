/** Orders, sorting, filtering and splitting of sequences, with the laws the components use. */
module Sequences {
  import opened Prelude

  // ---- lexicographic comparison ------------------------------------------------

  datatype Ordering = Less | Equal | Greater
  {
    /** `Ordering::then`. */
    function Then(next: Ordering): Ordering { if Equal? then next else this }

    function Reverse(): Ordering {
      match this case Less => Greater case Equal => Equal case Greater => Less
    }
  }

  function Compare(a: int, b: int): Ordering { if a < b then Less else if a == b then Equal else Greater }

  function CompareSeq(a: seq<int>, b: seq<int>): Ordering {
    if a == [] || b == [] then Compare(|a|, |b|)
    else Compare(a[0], b[0]).Then(CompareSeq(a[1..], b[1..]))
  }

  lemma {:induction false} CompareSeqEqual(a: seq<int>, b: seq<int>)
    ensures CompareSeq(a, b).Equal? <==> a == b
  {
    if a != [] && b != [] {
      CompareSeqEqual(a[1..], b[1..]);
      assert a == [a[0]] + a[1..] && b == [b[0]] + b[1..];
    }
  }

  lemma {:induction false} CompareSeqReverse(a: seq<int>, b: seq<int>)
    ensures CompareSeq(b, a) == CompareSeq(a, b).Reverse()
  {
    if a != [] && b != [] {
      CompareSeqReverse(a[1..], b[1..]);
    }
  }

  lemma {:induction false} CompareSeqTransitive(a: seq<int>, b: seq<int>, c: seq<int>)
    requires CompareSeq(a, b).Less? && CompareSeq(b, c).Less?
    ensures CompareSeq(a, c).Less?
  {
    if a != [] && b != [] && c != [] {
      if a[0] == b[0] == c[0] {
        CompareSeqTransitive(a[1..], b[1..], c[1..]);
      }
    }
  }

  /** The code points of a string; comparing them is comparing the UTF-8 bytes. */
  function Codes(s: string): seq<int> { seq(|s|, i requires 0 <= i < |s| => s[i] as int) }

  lemma CodesInjective(s: string, t: string)
    requires Codes(s) == Codes(t)
    ensures s == t
  {
    forall i | 0 <= i < |s|
      ensures s[i] == t[i]
    {
      assert Codes(s)[i] == Codes(t)[i];
    }
    assert |Codes(s)| == |s| && |Codes(t)| == |t|;
  }

  // ---- sorting by a key ----------------------------------------------------------

  ghost predicate Ascending<T>(key: T -> seq<int>, s: seq<T>) {
    forall i, j | 0 <= i < j < |s| :: CompareSeq(key(s[i]), key(s[j])).Less?
  }

  function Insert<T>(key: T -> seq<int>, x: T, s: seq<T>): (r: seq<T>)
    ensures multiset(r) == multiset(s) + multiset{x}
  {
    if s == [] then [x]
    else
      assert s == [s[0]] + s[1..];
      if CompareSeq(key(s[0]), key(x)).Less? then [s[0]] + Insert(key, x, s[1..]) else [x] + s
  }

  function Sort<T>(key: T -> seq<int>, s: seq<T>): (r: seq<T>)
    ensures multiset(r) == multiset(s)
    ensures |r| == |s|
  {
    if s == [] then [] else
      assert s == [s[0]] + s[1..];
      var r := Insert(key, s[0], Sort(key, s[1..]));
      assert multiset(r) == multiset(s);
      SameSize(r, s);
      r
  }

  lemma SameSize<T>(s: seq<T>, t: seq<T>)
    requires multiset(s) == multiset(t)
    ensures |s| == |t|
  {
    assert |multiset(s)| == |s| && |multiset(t)| == |t|;
  }

  lemma SameMembers<T>(s: seq<T>, t: seq<T>)
    requires multiset(s) == multiset(t)
    ensures forall x :: x in s <==> x in t
  {
    assert forall x :: x in s <==> x in multiset(s);
    assert forall x :: x in t <==> x in multiset(t);
  }

  ghost predicate DistinctKeys<T>(key: T -> seq<int>, s: seq<T>) {
    forall i, j | 0 <= i < j < |s| :: key(s[i]) != key(s[j])
  }

  lemma {:induction false} InsertAscending<T>(key: T -> seq<int>, x: T, s: seq<T>)
    requires Ascending(key, s)
    requires forall y | y in s :: key(y) != key(x)
    ensures Ascending(key, Insert(key, x, s))
  {
    if s != [] {
      var r := Insert(key, x, s);
      if CompareSeq(key(s[0]), key(x)).Less? {
        var tail := Insert(key, x, s[1..]);
        InsertAscending(key, x, s[1..]);
        forall j | 0 <= j < |tail|
          ensures CompareSeq(key(s[0]), key(tail[j])).Less?
        {
          assert tail[j] in multiset(s[1..]) + multiset{x};
          if tail[j] != x {
            assert tail[j] in s[1..];
            var k :| 0 <= k < |s[1..]| && s[1..][k] == tail[j];
            assert s[k + 1] == tail[j];
          }
        }
      } else {
        CompareSeqEqual(key(s[0]), key(x));
        CompareSeqReverse(key(s[0]), key(x));
        assert s[0] in s;
        forall j | 0 < j < |r|
          ensures CompareSeq(key(r[0]), key(r[j])).Less?
        {
          if j > 1 {
            CompareSeqTransitive(key(x), key(s[0]), key(s[j - 1]));
          }
        }
      }
    }
  }

  /** Sorting items whose keys differ puts them in strictly ascending order. */
  lemma {:induction false} SortAscending<T>(key: T -> seq<int>, s: seq<T>)
    requires DistinctKeys(key, s)
    ensures Ascending(key, Sort(key, s))
  {
    if s != [] {
      assert DistinctKeys(key, s[1..]);
      SortAscending(key, s[1..]);
      SameMembers(Sort(key, s[1..]), s[1..]);
      forall y | y in Sort(key, s[1..])
        ensures key(y) != key(s[0])
      {
        assert y in multiset(Sort(key, s[1..]));
        assert y in s[1..];
        var k :| 0 <= k < |s[1..]| && s[1..][k] == y;
        assert s[k + 1] == y;
      }
      InsertAscending(key, s[0], Sort(key, s[1..]));
    }
  }

  lemma AscendingFirst<T>(key: T -> seq<int>, s: seq<T>, x: T)
    requires Ascending(key, s) && x in s
    ensures x == s[0] || CompareSeq(key(s[0]), key(x)).Less?
  {
  }

  /** A strictly ascending sequence is determined by its members. */
  lemma {:induction false} AscendingUnique<T>(key: T -> seq<int>, s: seq<T>, t: seq<T>)
    requires Ascending(key, s) && Ascending(key, t)
    requires multiset(s) == multiset(t)
    ensures s == t
  {
    hide CompareSeq;
    SameSize(s, t);
    SameMembers(s, t);
    if s != [] {
      assert s[0] in t && t[0] in s;
      AscendingFirst(key, s, t[0]);
      AscendingFirst(key, t, s[0]);
      CompareSeqReverse(key(s[0]), key(t[0]));
      MultisetTail(s);
      MultisetTail(t);
      AscendingUnique(key, s[1..], t[1..]);
      assert s == [s[0]] + s[1..] && t == [t[0]] + t[1..];
    }
  }

  lemma MultisetTail<T>(s: seq<T>)
    requires s != []
    ensures multiset(s[1..]) == multiset(s) - multiset{s[0]}
  {
    assert s == [s[0]] + s[1..];
  }

  // ---- filter_map -----------------------------------------------------------------

  /** `filter_map`: the values of `f` on `s`, in order, where it has one. */
  function Collect<T, U>(f: T -> Option<U>, s: seq<T>): (r: seq<U>)
    ensures |r| <= |s|
  {
    if s == [] then []
    else (match f(s[0]) case Some(y) => [y] case None => []) + Collect(f, s[1..])
  }

  lemma {:induction false} CollectConcat<T, U>(f: T -> Option<U>, s: seq<T>, t: seq<T>)
    ensures Collect(f, s + t) == Collect(f, s) + Collect(f, t)
  {
    if s == [] {
      assert s + t == t;
    } else {
      assert (s + t)[1..] == s[1..] + t;
      CollectConcat(f, s[1..], t);
    }
  }

  lemma {:induction false} CollectMember<T, U>(f: T -> Option<U>, s: seq<T>, y: U)
    ensures y in Collect(f, s) <==> exists x :: x in s && f(x) == Some(y)
  {
    if s != [] {
      CollectMember(f, s[1..], y);
      assert s == [s[0]] + s[1..];
    }
  }

  lemma MultisetRemove<T>(s: seq<T>, i: nat)
    requires i < |s|
    ensures multiset(s[..i] + s[i + 1..]) == multiset(s) - multiset{s[i]}
  {
    assert s == s[..i] + [s[i]] + s[i + 1..];
  }

  lemma CollectMiddle<T, U>(f: T -> Option<U>, a: seq<T>, x: T, c: seq<T>)
    ensures multiset(Collect(f, a + [x] + c)) == multiset(Collect(f, a + c)) + multiset(Collect(f, [x]))
  {
    hide Collect;
    CollectConcat(f, a + [x], c);
    CollectConcat(f, a, [x]);
    CollectConcat(f, a, c);
    MultisetConcat(Collect(f, a), Collect(f, [x]), Collect(f, c));
  }

  lemma CollectRemove<T, U>(f: T -> Option<U>, s: seq<T>, i: nat)
    requires i < |s|
    ensures multiset(Collect(f, s)) == multiset(Collect(f, s[..i] + s[i + 1..])) + multiset(Collect(f, [s[i]]))
  {
    hide Collect;
    var before, x, after := s[..i], s[i], s[i + 1..];
    CutAt(s, i);
    CollectMiddle(f, before, x, after);
  }

  lemma CutAt<T>(s: seq<T>, i: nat)
    requires i < |s|
    ensures s == s[..i] + [s[i]] + s[i + 1..]
  {
  }

  lemma MultisetConcat<T>(a: seq<T>, b: seq<T>, c: seq<T>)
    ensures multiset(a + b + c) == multiset(a + c) + multiset(b)
  {
  }

  /** Reordering the input of `filter_map` only reorders its output. */
  lemma {:induction false} CollectPermutation<T, U>(f: T -> Option<U>, s: seq<T>, t: seq<T>)
    requires multiset(s) == multiset(t)
    ensures multiset(Collect(f, s)) == multiset(Collect(f, t))
  {
    SameSize(s, t);
    if s != [] {
      var i := PositionOf(t, s);
      var rest := t[..i] + t[i + 1..];
      MultisetTail(s);
      MultisetRemove(t, i);
      CollectPermutation(f, s[1..], rest);
      CollectRemove(f, t, i);
      CollectTail(f, s);
    }
  }

  lemma PositionOf<T>(t: seq<T>, s: seq<T>) returns (i: nat)
    requires multiset(s) == multiset(t) && s != []
    ensures i < |t| && t[i] == s[0]
  {
    assert s[0] in multiset(s);
    assert s[0] in t;
    i :| 0 <= i < |t| && t[i] == s[0];
  }

  lemma CollectTail<T, U>(f: T -> Option<U>, s: seq<T>)
    requires s != []
    ensures multiset(Collect(f, s)) == multiset(Collect(f, s[1..])) + multiset(Collect(f, [s[0]]))
  {
    assert s == [s[0]] + s[1..];
    CollectConcat(f, [s[0]], s[1..]);
  }

  // ---- splitting on a separator -------------------------------------------------------

  /** `split`: the pieces between separators; always at least one piece. */
  function Split<T(==)>(s: seq<T>, sep: T): (r: seq<seq<T>>)
    ensures r != []
  {
    if s == [] then [[]]
    else
      var rest := Split(s[1..], sep);
      if s[0] == sep then [[]] + rest else [[s[0]] + rest[0]] + rest[1..]
  }

  /** `join`: the pieces with one separator between neighbours. */
  function Join<T>(pieces: seq<seq<T>>, sep: T): seq<T>
    requires pieces != []
  {
    if |pieces| == 1 then pieces[0] else pieces[0] + [sep] + Join(pieces[1..], sep)
  }

  lemma {:induction false} SplitPieces<T>(s: seq<T>, sep: T)
    ensures forall i | 0 <= i < |Split(s, sep)| :: sep !in Split(s, sep)[i]
    ensures forall i, x | 0 <= i < |Split(s, sep)| && x in Split(s, sep)[i] :: x in s
  {
    if s != [] {
      SplitPieces(s[1..], sep);
      var rest := Split(s[1..], sep);
      assert s == [s[0]] + s[1..];
      if s[0] != sep {
        assert forall x | x in [s[0]] + rest[0] :: x == s[0] || x in rest[0];
      }
      var r := Split(s, sep);
      forall i, x | 0 <= i < |r| && x in r[i]
        ensures x in s
      {
        if i > 0 {
          assert r[i] == if s[0] == sep then rest[i - 1] else rest[i];
        }
      }
    }
  }

  lemma {:induction false} JoinSplit<T>(s: seq<T>, sep: T)
    ensures Join(Split(s, sep), sep) == s
  {
    if s != [] {
      JoinSplit(s[1..], sep);
      var rest := Split(s[1..], sep);
      if s[0] == sep {
        assert ([[]] + rest)[1..] == rest;
        assert Join([[]] + rest, sep) == [] + [sep] + Join(rest, sep);
      } else {
        var pieces := [[s[0]] + rest[0]] + rest[1..];
        assert pieces[1..] == rest[1..];
        if |rest| > 1 {
          assert Join(pieces, sep) == [s[0]] + rest[0] + [sep] + Join(rest[1..], sep);
        }
      }
      assert s == [s[0]] + s[1..];
    }
  }

  /** A separator splits a sequence into the pieces before it and the pieces after it. */
  lemma {:induction false} SplitConcat<T>(s: seq<T>, t: seq<T>, sep: T)
    ensures Split(s + [sep] + t, sep) == Split(s, sep) + Split(t, sep)
  {
    var whole := s + [sep] + t;
    if s == [] {
      assert whole[1..] == t;
    } else {
      assert whole[1..] == s[1..] + [sep] + t;
      hide Split, Prepend;
      SplitConcat(s[1..], t, sep);
      SplitStep(whole, sep);
      SplitStep(s, sep);
      PrependConcat(s[0], Split(s[1..], sep), Split(t, sep), s[0] == sep);
    }
  }

  /** Splitting looks at one element at a time. */
  function Prepend<T>(x: T, pieces: seq<seq<T>>, isSeparator: bool): seq<seq<T>>
    requires pieces != []
  {
    if isSeparator then [[]] + pieces else [[x] + pieces[0]] + pieces[1..]
  }

  lemma SplitStep<T>(s: seq<T>, sep: T)
    requires s != []
    ensures Split(s, sep) == Prepend(s[0], Split(s[1..], sep), s[0] == sep)
  {
  }

  lemma PrependConcat<T>(x: T, a: seq<seq<T>>, b: seq<seq<T>>, isSeparator: bool)
    requires a != []
    ensures Prepend(x, a + b, isSeparator) == Prepend(x, a, isSeparator) + b
  {
    assert (a + b)[0] == a[0] && (a + b)[1..] == a[1..] + b;
  }

  lemma {:induction false} SplitFree<T>(s: seq<T>, sep: T)
    requires sep !in s
    ensures Split(s, sep) == [s]
  {
    if s != [] {
      SplitFree(s[1..], sep);
      assert [s[0]] + s[1..] == s;
    }
  }

  lemma {:induction false} SplitJoin<T>(pieces: seq<seq<T>>, sep: T)
    requires pieces != []
    requires forall i | 0 <= i < |pieces| :: sep !in pieces[i]
    ensures Split(Join(pieces, sep), sep) == pieces
  {
    SplitFree(pieces[0], sep);
    if |pieces| > 1 {
      SplitJoin(pieces[1..], sep);
      SplitConcat(pieces[0], Join(pieces[1..], sep), sep);
      assert pieces == [pieces[0]] + pieces[1..];
    }
  }
}
