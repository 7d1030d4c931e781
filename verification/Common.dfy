/** Result types shared by every component. */
module Wrappers {
  datatype Option<+T> = None | Some(value: T)

  datatype Result<+T, +E> = Success(value: T) | Failure(error: E)
}

/** The list operations the program uses (filter, map, find, some) and the facts about them that
    do not depend on the order of the list. */
module Sequences {
  import opened Wrappers

  function Filter<T>(s: seq<T>, p: T -> bool): (r: seq<T>)
    ensures forall x :: x in r ==> x in s && p(x)
    ensures forall x :: x in s && p(x) ==> x in r
    ensures |r| <= |s|
  {
    if s == [] then []
    else if p(s[0]) then [s[0]] + Filter(s[1..], p)
    else Filter(s[1..], p)
  }

  function Map<T, U>(s: seq<T>, f: T -> U): (r: seq<U>)
    ensures |r| == |s| && forall i :: 0 <= i < |s| ==> r[i] == f(s[i])
  {
    if s == [] then [] else [f(s[0])] + Map(s[1..], f)
  }

  function Find<T>(s: seq<T>, p: T -> bool): (r: Option<T>)
    ensures r.Some? ==> r.value in s && p(r.value)
    ensures r.None? ==> forall x :: x in s ==> !p(x)
  {
    if s == [] then None
    else if p(s[0]) then Some(s[0])
    else Find(s[1..], p)
  }

  ghost predicate Distinct<T>(s: seq<T>) {
    forall i, j :: 0 <= i < j < |s| ==> s[i] != s[j]
  }

  lemma {:induction false} DistinctSnoc<T>(s: seq<T>, x: T)
    ensures Distinct(s + [x]) <==> Distinct(s) && x !in s
  {
    var t := s + [x];
    assert forall i :: 0 <= i < |s| ==> t[i] == s[i] && s[i] in s;
    assert t[|s|] == x;
    if Distinct(t) {
      forall i, j | 0 <= i < j < |s| ensures s[i] != s[j] {
        assert t[i] != t[j];
      }
    }
  }

  lemma {:induction false} DistinctConcat<T>(s: seq<T>, t: seq<T>)
    requires Distinct(s) && Distinct(t) && forall x :: x in s ==> x !in t
    ensures Distinct(s + t)
  {
    assert forall i :: 0 <= i < |s| ==> s[i] in s;
    assert forall i :: 0 <= i < |t| ==> t[i] in t;
  }

  lemma {:induction false} DistinctPrefix<T>(s: seq<T>, n: nat)
    requires n <= |s| && Distinct(s)
    ensures Distinct(s[..n])
  {
  }

  lemma {:induction false} AtMostOnce<T>(s: seq<T>, x: T)
    requires Distinct(s)
    ensures multiset(s)[x] <= 1
  {
    if s != [] {
      assert s == [s[0]] + s[1..];
      AtMostOnce(s[1..], x);
      if s[0] == x {
        assert x !in s[1..];
      }
    }
  }

  lemma {:induction false} DistinctPermutes<T>(s: seq<T>, t: seq<T>)
    requires multiset(s) == multiset(t) && Distinct(s)
    ensures Distinct(t)
  {
    forall i, j | 0 <= i < j < |t| ensures t[i] != t[j] {
      if t[i] == t[j] {
        assert t == t[..i] + [t[i]] + t[i + 1..j] + [t[j]] + t[j + 1..];
        assert multiset(t)[t[i]] >= 2;
        AtMostOnce(s, t[i]);
      }
    }
  }

  /** What a set built from a list contains. */
  ghost function Members<T>(s: seq<T>): set<T> { set x | x in s }

  lemma {:induction false} DistinctCount<T>(s: seq<T>)
    requires Distinct(s)
    ensures |Members(s)| == |s|
  {
    if s != [] {
      var init, last := s[..|s| - 1], s[|s| - 1];
      DistinctCount(init);
      assert s == init + [last];
      DistinctSnoc(init, last);
      assert Members(s) == Members(init) + {last};
    }
  }

  /** As many distinct items as there are, each of them one of them, are all of them. */
  lemma {:induction false} CoverIsExact<T>(received: seq<T>, sent: seq<T>)
    requires Distinct(received) && Distinct(sent) && |received| == |sent|
    requires forall x :: x in received ==> x in sent
    ensures Members(received) == Members(sent)
  {
    DistinctCount(received);
    DistinctCount(sent);
    var a, b := Members(received), Members(sent);
    assert b == a + (b - a);
    assert |b| == |a| + |b - a|;
  }

  lemma {:induction false} ExactHasSameSize<T>(received: seq<T>, sent: seq<T>)
    requires Distinct(received) && Distinct(sent) && Members(received) == Members(sent)
    ensures |received| == |sent|
  {
    DistinctCount(received);
    DistinctCount(sent);
  }

  lemma FilterAgree<T>(s: seq<T>, p: T -> bool, q: T -> bool)
    requires forall x :: x in s ==> p(x) == q(x)
    ensures Filter(s, p) == Filter(s, q)
  {
    if s != [] {
      FilterAgree(s[1..], p, q);
    }
  }

  lemma FilterConcat<T>(s: seq<T>, t: seq<T>, p: T -> bool)
    ensures Filter(s + t, p) == Filter(s, p) + Filter(t, p)
  {
    if s == [] {
      assert s + t == t;
    } else {
      assert (s + t)[1..] == s[1..] + t;
      FilterConcat(s[1..], t, p);
    }
  }

  lemma FilterSnoc<T>(s: seq<T>, x: T, p: T -> bool)
    ensures Filter(s + [x], p) == Filter(s, p) + (if p(x) then [x] else [])
  {
    FilterConcat(s, [x], p);
  }

  lemma FilterAll<T>(s: seq<T>, p: T -> bool)
    requires forall x :: x in s ==> p(x)
    ensures Filter(s, p) == s
  {
    if s != [] {
      FilterAll(s[1..], p);
    }
  }

  lemma FilterNone<T>(s: seq<T>, p: T -> bool)
    requires forall x :: x in s ==> !p(x)
    ensures Filter(s, p) == []
  {
    if s != [] {
      FilterNone(s[1..], p);
    }
  }

  lemma {:induction false} FilterOfFilter<T>(s: seq<T>, p: T -> bool, q: T -> bool)
    requires forall x :: x in s && q(x) ==> p(x)
    ensures Filter(Filter(s, p), q) == Filter(s, q)
  {
    if s != [] {
      FilterOfFilter(s[1..], p, q);
    }
  }

  /** A permutation of a nonempty list holds its first element somewhere, and the rest agree. */
  lemma PermutationSplit<T>(s: seq<T>, t: seq<T>) returns (i: nat)
    requires s != [] && multiset(s) == multiset(t)
    ensures i < |t| && t[i] == s[0]
    ensures t == t[..i] + [s[0]] + t[i + 1..]
    ensures multiset(s[1..]) == multiset(t[..i] + t[i + 1..])
  {
    SameMembers(s, t);
    assert s[0] in s && s[0] in t;
    i :| 0 <= i < |t| && t[i] == s[0];
    assert s == [s[0]] + s[1..];
    assert t == t[..i] + [s[0]] + t[i + 1..];
    assert multiset(s[1..]) == multiset(s) - multiset{s[0]};
    assert multiset(t[..i] + t[i + 1..]) == multiset(t) - multiset{s[0]};
  }

  lemma FilterPermutes<T>(s: seq<T>, t: seq<T>, p: T -> bool)
    requires multiset(s) == multiset(t)
    ensures multiset(Filter(s, p)) == multiset(Filter(t, p))
  {
    if s == [] {
      assert |multiset(t)| == 0;
    } else {
      var i := PermutationSplit(s, t);
      FilterPermutes(s[1..], t[..i] + t[i + 1..], p);
      FilterConcat(t[..i], t[i + 1..], p);
      FilterConcat(t[..i] + [s[0]], t[i + 1..], p);
      FilterSnoc(t[..i], s[0], p);
    }
  }

  lemma SameMembers<T>(s: seq<T>, t: seq<T>)
    requires multiset(s) == multiset(t)
    ensures |s| == |t|
    ensures forall x :: x in s <==> x in t
  {
    assert |multiset(s)| == |multiset(t)|;
    forall x ensures x in s <==> x in t {
      assert x in s <==> x in multiset(s);
      assert x in t <==> x in multiset(t);
    }
  }

  lemma MapMembers<T, U>(s: seq<T>, f: T -> U)
    ensures forall x :: x in s ==> f(x) in Map(s, f)
    ensures forall y :: y in Map(s, f) ==> exists x :: x in s && f(x) == y
  {
    forall x | x in s ensures f(x) in Map(s, f) {
      var i :| 0 <= i < |s| && s[i] == x;
      assert Map(s, f)[i] == f(x);
    }
    forall y | y in Map(s, f) ensures exists x :: x in s && f(x) == y {
      var i :| 0 <= i < |s| && Map(s, f)[i] == y;
      assert s[i] in s;
    }
  }

  lemma MapConcat<T, U>(s: seq<T>, t: seq<T>, f: T -> U)
    ensures Map(s + t, f) == Map(s, f) + Map(t, f)
  {
  }

  lemma MapPermutes<T, U>(s: seq<T>, t: seq<T>, f: T -> U)
    requires multiset(s) == multiset(t)
    ensures multiset(Map(s, f)) == multiset(Map(t, f))
  {
    if s == [] {
      assert |multiset(t)| == 0;
    } else {
      var i := PermutationSplit(s, t);
      MapPermutes(s[1..], t[..i] + t[i + 1..], f);
      MapConcat(t[..i], t[i + 1..], f);
      MapConcat(t[..i] + [s[0]], t[i + 1..], f);
      MapConcat(t[..i], [s[0]], f);
    }
  }

  /** When at most one member passes, the first one found does not depend on the order. */
  lemma FindPermutes<T>(s: seq<T>, t: seq<T>, p: T -> bool)
    requires forall x :: x in s <==> x in t
    requires forall x, y :: x in s && y in s && p(x) && p(y) ==> x == y
    ensures Find(s, p) == Find(t, p)
  {
  }

  lemma FindAgree<T>(s: seq<T>, p: T -> bool, q: T -> bool)
    requires forall x :: x in s ==> p(x) == q(x)
    ensures Find(s, p) == Find(s, q)
  {
    if s != [] {
      FindAgree(s[1..], p, q);
    }
  }

  lemma FindConcat<T>(s: seq<T>, t: seq<T>, p: T -> bool)
    ensures Find(s + t, p) == if Find(s, p).Some? then Find(s, p) else Find(t, p)
  {
    if s == [] {
      assert s + t == t;
    } else {
      assert (s + t)[1..] == s[1..] + t;
      FindConcat(s[1..], t, p);
    }
  }

  /** Dropping members that the search would not accept anyway changes nothing. */
  lemma FindAfterFilter<T>(s: seq<T>, keep: T -> bool, p: T -> bool)
    requires forall x :: x in s && p(x) ==> keep(x)
    ensures Find(Filter(s, keep), p) == Find(s, p)
  {
    if s != [] {
      FindAfterFilter(s[1..], keep, p);
    }
  }

  lemma FindAfterMap<T>(s: seq<T>, f: T -> T, p: T -> bool)
    requires forall x :: x in s ==> p(f(x)) == p(x)
    ensures Find(Map(s, f), p) == match Find(s, p) case None => None case Some(x) => Some(f(x))
  {
    if s != [] {
      assert Map(s, f)[1..] == Map(s[1..], f);
      FindAfterMap(s[1..], f, p);
    }
  }
}

/** String order and sorting. A `char` is a Unicode scalar value here and a UTF-16 code unit in the program,
    so `Less` is the program's order of strings without characters beyond U+FFFF; those the program orders
    by their surrogates. The proofs use only that the order is total. */
module Ordering {
  import opened Sequences

  predicate Less(a: string, b: string) {
    b != [] && (a == [] || a[0] < b[0] || (a[0] == b[0] && Less(a[1..], b[1..])))
  }

  predicate AtMost(a: string, b: string) {
    a == b || Less(a, b)
  }

  /** A string comes before another when it is a proper beginning of it, or has the smaller character where
      they first differ. */
  lemma {:induction false} LessIs(a: string, b: string)
    ensures Less(a, b)
            <==> || (|a| < |b| && a == b[..|a|])
                 || exists i :: 0 <= i < |a| && i < |b| && a[..i] == b[..i] && a[i] as int < b[i] as int
  {
    if a != [] && b != [] && a[0] == b[0] {
      LessIs(a[1..], b[1..]);
      if |a| < |b| {
        assert a == b[..|a|] <==> a[1..] == b[1..][..|a[1..]|] by {
          assert a == [a[0]] + a[1..] && b[..|a|] == [b[0]] + b[1..][..|a[1..]|];
        }
      }
      forall i | 0 < i < |a| && i < |b| ensures a[..i] == b[..i] <==> a[1..][..i - 1] == b[1..][..i - 1] {
        assert a[..i] == [a[0]] + a[1..][..i - 1] && b[..i] == [b[0]] + b[1..][..i - 1];
      }
      forall i | 0 <= i < |a[1..]| && i < |b[1..]| && a[1..][..i] == b[1..][..i] && a[1..][i] as int < b[1..][i] as int
        ensures a[..i + 1] == b[..i + 1] && a[i + 1] as int < b[i + 1] as int
      {
      }
    }
  }

  lemma LessTransitive(a: string, b: string, c: string)
    requires Less(a, b) && Less(b, c)
    ensures Less(a, c)
  {
  }

  lemma LessTotal(a: string, b: string)
    ensures a == b || Less(a, b) || Less(b, a)
  {
    if a != [] && b != [] && a[0] == b[0] {
      LessTotal(a[1..], b[1..]);
      assert a == [a[0]] + a[1..] && b == [b[0]] + b[1..];
    }
  }

  lemma LessAsymmetric(a: string, b: string)
    requires Less(a, b)
    ensures a != b && !Less(b, a)
  {
  }

  lemma AtMostAntisymmetric(a: string, b: string)
    requires AtMost(a, b) && AtMost(b, a)
    ensures a == b
  {
    if a != b {
      LessAsymmetric(a, b);
    }
  }

  ghost predicate TotalPreorder<T(!new)>(le: (T, T) -> bool) {
    && (forall a, b :: le(a, b) || le(b, a))
    && (forall a, b, c :: le(a, b) && le(b, c) ==> le(a, c))
  }

  ghost predicate SortedBy<T>(s: seq<T>, le: (T, T) -> bool) {
    forall i, j :: 0 <= i < j < |s| ==> le(s[i], s[j])
  }

  function Insert<T>(x: T, s: seq<T>, le: (T, T) -> bool): (r: seq<T>)
    ensures multiset(r) == multiset{x} + multiset(s)
  {
    if s == [] then [x]
    else if le(x, s[0]) then [x] + s
    else
      assert s == [s[0]] + s[1..];
      [s[0]] + Insert(x, s[1..], le)
  }

  /** The stable sort: an element is placed before the ones it does not exceed. */
  function SortBy<T>(s: seq<T>, le: (T, T) -> bool): (r: seq<T>)
    ensures multiset(r) == multiset(s)
  {
    if s == [] then []
    else
      assert s == [s[0]] + s[1..];
      Insert(s[0], SortBy(s[1..], le), le)
  }

  lemma InsertSorts<T(!new)>(x: T, s: seq<T>, le: (T, T) -> bool)
    requires TotalPreorder(le) && SortedBy(s, le)
    ensures SortedBy(Insert(x, s, le), le)
  {
    if s != [] && !le(x, s[0]) {
      InsertSorts(x, s[1..], le);
      var r := Insert(x, s[1..], le);
      SameMembers(r, [x] + s[1..]);
      forall j | 0 <= j < |r| ensures le(s[0], r[j]) {
        assert r[j] in [x] + s[1..];
        if r[j] != x {
          assert r[j] in s[1..];
        }
      }
    } else if s != [] {
      forall j | 0 <= j < |s| ensures le(x, s[j]) {
        assert j > 0 ==> le(s[0], s[j]);
      }
    }
  }

  lemma SortSorts<T(!new)>(s: seq<T>, le: (T, T) -> bool)
    requires TotalPreorder(le)
    ensures SortedBy(SortBy(s, le), le)
  {
    if s != [] {
      SortSorts(s[1..], le);
      InsertSorts(s[0], SortBy(s[1..], le), le);
    }
  }

  lemma SortOfSorted<T>(s: seq<T>, le: (T, T) -> bool)
    requires SortedBy(s, le)
    ensures SortBy(s, le) == s
  {
    if |s| > 0 {
      SortOfSorted(s[1..], le);
      assert |s| > 1 ==> le(s[0], s[1]);
    }
  }

  lemma {:induction false} InsertIsStable<T>(x: T, s: seq<T>, le: (T, T) -> bool, p: T -> bool)
    requires forall y :: y in s && p(x) && p(y) ==> le(x, y)
    ensures Filter(Insert(x, s, le), p) == Filter([x] + s, p)
  {
    if s != [] && !le(x, s[0]) {
      var inserted := Insert(x, s[1..], le);
      InsertIsStable(x, s[1..], le, p);
      assert ([x] + s)[1..] == s && ([x] + s[1..])[1..] == s[1..];
      assert ([s[0]] + inserted)[1..] == inserted;
    }
  }

  /** The sort is stable: members among which the order does not distinguish keep their order. */
  lemma {:induction false} SortIsStable<T(!new)>(s: seq<T>, le: (T, T) -> bool, p: T -> bool)
    requires forall a, b :: p(a) && p(b) ==> le(a, b)
    ensures Filter(SortBy(s, le), p) == Filter(s, p)
  {
    if s != [] {
      SortIsStable(s[1..], le, p);
      InsertIsStable(s[0], SortBy(s[1..], le), le, p);
      assert ([s[0]] + SortBy(s[1..], le))[1..] == SortBy(s[1..], le);
    }
  }

  function SortIds(ids: seq<string>): (r: seq<string>)
    ensures multiset(r) == multiset(ids)
  {
    SortBy(ids, AtMost)
  }

  lemma AtMostIsTotal()
    ensures TotalPreorder(AtMost)
  {
    forall a, b ensures AtMost(a, b) || AtMost(b, a) {
      LessTotal(a, b);
    }
    forall a, b, c | AtMost(a, b) && AtMost(b, c) ensures AtMost(a, c) {
      if a != b && b != c {
        LessTransitive(a, b, c);
      }
    }
  }

  /** Two ascending lists of strings with the same content are the same list. */
  lemma {:induction false} AscendingIsUnique(s: seq<string>, t: seq<string>)
    requires SortedBy(s, AtMost) && SortedBy(t, AtMost)
    requires multiset(s) == multiset(t)
    ensures s == t
  {
    hide AtMost, SortedBy;
    SameMembers(s, t);
    if s != [] {
      SameHead(s, t);
      SortedTail(s);
      SortedTail(t);
      assert s == [s[0]] + s[1..] && t == [t[0]] + t[1..];
      assert multiset(s[1..]) == multiset(s) - multiset{s[0]} == multiset(t[1..]);
      AscendingIsUnique(s[1..], t[1..]);
    }
  }

  lemma {:induction false} SortedTail(s: seq<string>)
    requires SortedBy(s, AtMost) && s != []
    ensures SortedBy(s[1..], AtMost)
  {
    hide AtMost;
  }

  lemma {:induction false} SameHead(s: seq<string>, t: seq<string>)
    requires SortedBy(s, AtMost) && SortedBy(t, AtMost) && s != [] && t != []
    requires s[0] in t && t[0] in s
    ensures s[0] == t[0]
  {
    hide AtMost;
    AtMostAntisymmetric(s[0], t[0]);
  }

  lemma SortIdsPermutes(s: seq<string>, t: seq<string>)
    requires multiset(s) == multiset(t)
    ensures SortIds(s) == SortIds(t)
  {
    AtMostIsTotal();
    SortSorts(s, AtMost);
    SortSorts(t, AtMost);
    AscendingIsUnique(SortIds(s), SortIds(t));
  }
}

/** Blank text. */
module Text {
  predicate IsSpace(c: char) {
    var n := c as int;
    || 0x09 <= n <= 0x0D || n == 0x20 || n == 0xA0 || n == 0x1680 || 0x2000 <= n <= 0x200A
    || n == 0x2028 || n == 0x2029 || n == 0x202F || n == 0x205F || n == 0x3000 || n == 0xFEFF
  }

  function Trim(s: string): string {
    if s == [] then []
    else if IsSpace(s[0]) then Trim(s[1..])
    else if IsSpace(s[|s| - 1]) then Trim(s[..|s| - 1])
    else s
  }
}
