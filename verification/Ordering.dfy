// The byte-wise order Go uses on identifiers (`<` on strings, sort.Strings).
module Ordering {

  predicate Less(a: string, b: string) {
    if b == "" then false
    else if a == "" then true
    else if a[0] != b[0] then a[0] < b[0]
    else Less(a[1..], b[1..])
  }

  predicate Leq(a: string, b: string) {
    a == b || Less(a, b)
  }

  lemma {:induction false} LessTotal(a: string, b: string)
    ensures a == b || Less(a, b) || Less(b, a)
  {
    if a != "" && b != "" && a[0] == b[0] {
      LessTotal(a[1..], b[1..]);
      if a[1..] == b[1..] {
        assert a == [a[0]] + a[1..] && b == [b[0]] + b[1..];
      }
    }
  }

  lemma {:induction false} LessAsymmetric(a: string, b: string)
    requires Less(a, b)
    ensures !Less(b, a) && a != b
  {
    if a != "" && a[0] == b[0] {
      LessAsymmetric(a[1..], b[1..]);
    }
  }

  lemma {:induction false} LessTransitive(a: string, b: string, c: string)
    requires Less(a, b) && Less(b, c)
    ensures Less(a, c)
  {
    if a != "" && a[0] == b[0] == c[0] {
      LessTransitive(a[1..], b[1..], c[1..]);
    }
  }

  /** `a` and `b` agree on the first `n` characters, and there `a` ends or has the smaller one. */
  ghost predicate DifferAt(a: string, b: string, n: nat) {
    && n <= |a| && n < |b| && a[..n] == b[..n] && (n == |a| || a[n] < b[n])
  }

  lemma FirstAgrees(a: string, b: string, n: nat)
    requires DifferAt(a, b, n) && n > 0
    ensures a[0] == b[0]
  {
    assert a[..n][0] == b[..n][0];
  }

  /** The order decides by the first difference, and a proper prefix comes first. */
  lemma {:induction false} LessExactly(a: string, b: string)
    ensures Less(a, b) <==> exists n: nat :: DifferAt(a, b, n)
    decreases |a|
  {
    if a != "" && b != "" && a[0] == b[0] {
      LessExactly(a[1..], b[1..]);
      if n: nat :| DifferAt(a[1..], b[1..], n) {
        assert a[..n + 1] == [a[0]] + a[1..][..n] && b[..n + 1] == [b[0]] + b[1..][..n];
        assert DifferAt(a, b, n + 1);
      }
      if n: nat :| DifferAt(a, b, n) {
        assert n > 0 && a[1..][..n - 1] == a[..n][1..] && b[1..][..n - 1] == b[..n][1..];
        assert DifferAt(a[1..], b[1..], n - 1);
      }
    } else if b != "" && (a == "" || a[0] != b[0]) {
      assert DifferAt(a, b, 0) <==> a == "" || a[0] < b[0];
      forall n: nat | DifferAt(a, b, n) ensures n == 0 {
        if n > 0 { FirstAgrees(a, b, n); }
      }
    }
  }

  ghost predicate Sorted(s: seq<string>) {
    forall i, j :: 0 <= i < j < |s| ==> Leq(s[i], s[j])
  }

  ghost predicate StrictlySorted(s: seq<string>) {
    forall i, j :: 0 <= i < j < |s| ==> Less(s[i], s[j])
  }

  ghost predicate Distinct<T(!new)>(s: seq<T>) {
    forall i, j :: 0 <= i < j < |s| ==> s[i] != s[j]
  }

  function Insert(x: string, s: seq<string>): (r: seq<string>)
    requires Sorted(s)
    ensures Sorted(r) && multiset(r) == multiset(s) + multiset{x}
  {
    if s == [] then [x]
    else if Leq(x, s[0]) then
      PrependLeast(x, s);
      [x] + s
    else
      var rest := Insert(x, s[1..]);
      assert s == [s[0]] + s[1..];
      InsertedBelow(x, s, rest);
      [s[0]] + rest
  }

  lemma PrependLeast(x: string, s: seq<string>)
    requires s != [] && Sorted(s) && Leq(x, s[0])
    ensures Sorted([x] + s)
  {
    forall j | 0 <= j < |s| ensures Leq(x, s[j]) {
      if j > 0 && x != s[0] && s[0] != s[j] {
        LessTransitive(x, s[0], s[j]);
      }
    }
  }

  lemma InsertedBelow(x: string, s: seq<string>, rest: seq<string>)
    requires s != [] && Sorted(s) && !Leq(x, s[0])
    requires Sorted(rest) && multiset(rest) == multiset(s[1..]) + multiset{x}
    ensures Sorted([s[0]] + rest)
  {
    LessTotal(x, s[0]);
    forall j | 0 <= j < |rest| ensures Leq(s[0], rest[j]) {
      assert rest[j] in multiset(rest);
      assert rest[j] == x || rest[j] in s[1..];
    }
  }

  /** sort.Strings. */
  function SortStrings(s: seq<string>): (r: seq<string>)
    ensures Sorted(r) && multiset(r) == multiset(s)
  {
    if s == [] then []
    else
      assert s == [s[0]] + s[1..];
      Insert(s[0], SortStrings(s[1..]))
  }

  lemma SortedMember(s: seq<string>, x: string)
    ensures x in SortStrings(s) <==> x in s
    ensures |SortStrings(s)| == |s|
  {
    assert x in multiset(s) <==> x in multiset(SortStrings(s));
    assert |multiset(s)| == |multiset(SortStrings(s))|;
  }

  /** Sorting a list without repetitions yields a strictly increasing list. */
  lemma {:induction false} SortedDistinct(s: seq<string>)
    requires Distinct(s)
    ensures StrictlySorted(SortStrings(s))
  {
    if s != [] {
      SortedDistinct(s[1..]);
      SortedMember(s[1..], s[0]);
      InsertStrict(s[0], SortStrings(s[1..]));
    }
  }

  lemma {:induction false} InsertStrict(x: string, s: seq<string>)
    requires StrictlySorted(s) && x !in s
    ensures Sorted(s) && StrictlySorted(Insert(x, s))
  {
    if s == [] {
    } else if Leq(x, s[0]) {
      forall j | 0 <= j < |s| ensures Less(x, s[j]) {
        if j > 0 { LessTransitive(x, s[0], s[j]); }
      }
    } else {
      LessTotal(x, s[0]);
      InsertStrict(x, s[1..]);
      var rest := Insert(x, s[1..]);
      forall j | 0 <= j < |rest| ensures Less(s[0], rest[j]) {
        assert rest[j] in multiset(rest);
        assert rest[j] == x || rest[j] in s[1..];
      }
    }
  }

  /** A strictly increasing list is determined by its elements. */
  lemma {:induction false} StrictlySortedUnique(s: seq<string>, t: seq<string>)
    requires StrictlySorted(s) && StrictlySorted(t)
    requires forall x :: x in s <==> x in t
    ensures s == t
  {
    if s != [] {
      assert s[0] in t;
      assert t[0] in s;
      LeastFirst(s, t[0]);
      LeastFirst(t, s[0]);
      if s[0] != t[0] {
        LessAsymmetric(s[0], t[0]);
      }
      forall x ensures x in s[1..] <==> x in t[1..] {
        Tail(s, x);
        Tail(t, x);
      }
      StrictlySortedUnique(s[1..], t[1..]);
      assert s == [s[0]] + s[1..] && t == [t[0]] + t[1..];
    } else {
      FirstIsMember(t);
    }
  }

  lemma FirstIsMember(s: seq<string>)
    ensures s == [] || s[0] in s
  {}

  lemma LeastFirst(s: seq<string>, x: string)
    requires StrictlySorted(s) && x in s
    ensures Leq(s[0], x)
  {}

  lemma Tail(s: seq<string>, x: string)
    requires s != [] && StrictlySorted(s)
    ensures x in s[1..] <==> x in s && x != s[0]
  {
    if x in s[1..] {
      var i :| 0 <= i < |s[1..]| && s[1..][i] == x;
      LessAsymmetric(s[0], s[i + 1]);
    }
    if x in s && x != s[0] {
      var i :| 0 <= i < |s| && s[i] == x;
      assert s[1..][i - 1] == x;
    }
  }

  /** A subset is no larger, and of the same size only if it is the whole set. */
  lemma {:induction false} SubsetSize<T>(a: set<T>, b: set<T>)
    requires a <= b
    ensures |a| <= |b| && (|a| == |b| ==> a == b)
  {
    if a != {} {
      var x :| x in a;
      SubsetSize(a - {x}, b - {x});
    }
  }

  /** The keys of a Go map in the order sort.Strings gives them. */
  method ToSortedSeq(s: set<string>) returns (r: seq<string>)
    ensures StrictlySorted(r) && forall x :: x in r <==> x in s
  {
    var rest, ids := s, [];
    while rest != {}
      invariant rest <= s && Distinct(ids)
      invariant forall x :: x in ids <==> x in s && x !in rest
      decreases rest
    {
      var id :| id in rest;
      ids, rest := ids + [id], rest - {id};
    }
    SortedDistinct(ids);
    r := SortStrings(ids);
    forall x ensures x in r <==> x in ids {
      SortedMember(ids, x);
    }
  }

  /** The list that ToSortedSeq returns. */
  ghost function SortedList(s: set<string>): (r: seq<string>)
    ensures StrictlySorted(r) && forall x :: x in r <==> x in s
  {
    SortedListExists(s);
    var r :| StrictlySorted(r) && forall x :: x in r <==> x in s;
    r
  }

  lemma {:induction false} SortedListExists(s: set<string>)
    ensures exists r: seq<string> :: StrictlySorted(r) && forall x :: x in r <==> x in s
    decreases s
  {
    if s == {} {
      var r: seq<string> := [];
      assert StrictlySorted(r) && forall x :: x in r <==> x in s;
    } else {
      var x :| x in s;
      SortedListExists(s - {x});
      var r: seq<string> :| StrictlySorted(r) && forall y :: y in r <==> y in s - {x};
      InsertStrict(x, r);
      InsertMember(x, r);
      assert forall y :: y in Insert(x, r) <==> y in s;
    }
  }

  lemma InsertMember(x: string, s: seq<string>)
    requires Sorted(s)
    ensures forall y :: y in Insert(x, s) <==> y == x || y in s
  {
    forall y ensures y in Insert(x, s) <==> y == x || y in s {
      assert y in Insert(x, s) <==> y in multiset(Insert(x, s));
    }
  }

  // ----- sorting records by a key -------------------------------------------------------

  ghost predicate SortedBy<T(!new)>(s: seq<T>, key: T -> string) {
    forall i, j :: 0 <= i < j < |s| ==> Leq(key(s[i]), key(s[j]))
  }

  function InsertBy<T>(x: T, s: seq<T>, key: T -> string): (r: seq<T>)
    ensures multiset(r) == multiset(s) + multiset{x}
  {
    if s == [] then [x]
    else if Leq(key(x), key(s[0])) then [x] + s
    else
      assert s == [s[0]] + s[1..];
      [s[0]] + InsertBy(x, s[1..], key)
  }

  /** sort.Slice with a comparison of string keys. */
  function SortBy<T>(s: seq<T>, key: T -> string): (r: seq<T>)
    ensures multiset(r) == multiset(s)
  {
    if s == [] then []
    else
      assert s == [s[0]] + s[1..];
      InsertBy(s[0], SortBy(s[1..], key), key)
  }

  lemma {:induction false} InsertBySorted<T(!new)>(x: T, s: seq<T>, key: T -> string)
    requires SortedBy(s, key)
    ensures SortedBy(InsertBy(x, s, key), key)
  {
    if s != [] {
      if Leq(key(x), key(s[0])) {
        forall j | 0 <= j < |s| ensures Leq(key(x), key(s[j])) {
          if j > 0 && key(x) != key(s[0]) && key(s[0]) != key(s[j]) {
            LessTransitive(key(x), key(s[0]), key(s[j]));
          }
        }
      } else {
        LessTotal(key(x), key(s[0]));
        InsertBySorted(x, s[1..], key);
        var rest := InsertBy(x, s[1..], key);
        forall j | 0 <= j < |rest| ensures Leq(key(s[0]), key(rest[j])) {
          assert rest[j] in multiset(rest);
          assert rest[j] == x || rest[j] in s[1..];
        }
      }
    }
  }

  lemma {:induction false} SortBySorted<T(!new)>(s: seq<T>, key: T -> string)
    ensures SortedBy(SortBy(s, key), key)
  {
    if s != [] {
      SortBySorted(s[1..], key);
      InsertBySorted(s[0], SortBy(s[1..], key), key);
    }
  }

  lemma SortByMember<T>(s: seq<T>, key: T -> string, x: T)
    ensures x in SortBy(s, key) <==> x in s
    ensures |SortBy(s, key)| == |s|
  {
    assert x in multiset(s) <==> x in multiset(SortBy(s, key));
    assert |multiset(s)| == |multiset(SortBy(s, key))|;
  }

  ghost predicate DistinctKeys<T(!new)>(s: seq<T>, key: T -> string) {
    forall i, j :: 0 <= i < j < |s| ==> key(s[i]) != key(s[j])
  }

  ghost predicate StrictlySortedBy<T(!new)>(s: seq<T>, key: T -> string) {
    forall i, j :: 0 <= i < j < |s| ==> Less(key(s[i]), key(s[j]))
  }

  lemma LeastByFirst<T(!new)>(s: seq<T>, x: T, key: T -> string)
    requires StrictlySortedBy(s, key) && x in s
    ensures s[0] == x || Less(key(s[0]), key(x))
  {}

  lemma SameFirst<T(!new)>(s: seq<T>, t: seq<T>, key: T -> string)
    requires StrictlySortedBy(s, key) && StrictlySortedBy(t, key) && multiset(s) == multiset(t) && s != []
    ensures t != [] && s[0] == t[0] && multiset(s[1..]) == multiset(t[1..])
  {
    assert s[0] in multiset(t);
    assert t[0] in multiset(s);
    LeastByFirst(s, t[0], key);
    LeastByFirst(t, s[0], key);
    if s[0] != t[0] {
      LessAsymmetric(key(s[0]), key(t[0]));
    }
    assert s == [s[0]] + s[1..] && t == [t[0]] + t[1..];
    assert multiset(s[1..]) == multiset(s) - multiset{s[0]};
    assert multiset(t[1..]) == multiset(t) - multiset{t[0]};
  }

  lemma TailStrict<T(!new)>(s: seq<T>, key: T -> string)
    requires StrictlySortedBy(s, key) && s != []
    ensures StrictlySortedBy(s[1..], key)
  {}

  lemma {:induction false} StrictlySortedByUnique<T(!new)>(s: seq<T>, t: seq<T>, key: T -> string)
    requires StrictlySortedBy(s, key) && StrictlySortedBy(t, key) && multiset(s) == multiset(t)
    ensures s == t
    decreases |s|
  {
    if s == [] {
      assert |multiset(t)| == 0;
    } else {
      SameFirst(s, t, key);
      TailStrict(s, key);
      TailStrict(t, key);
      hide StrictlySortedBy;
      StrictlySortedByUnique(s[1..], t[1..], key);
      assert s == [s[0]] + s[1..] && t == [t[0]] + t[1..];
    }
  }

  /** Distinct keys stay distinct, so a sorted list is strictly sorted. */
  lemma {:induction false} InsertByStrict<T(!new)>(x: T, s: seq<T>, key: T -> string)
    requires StrictlySortedBy(s, key) && forall y :: y in s ==> key(y) != key(x)
    ensures StrictlySortedBy(InsertBy(x, s, key), key)
  {
    if s != [] {
      if Leq(key(x), key(s[0])) {
        forall j | 0 <= j < |s| ensures Less(key(x), key(s[j])) {
          if j > 0 { LessTransitive(key(x), key(s[0]), key(s[j])); }
        }
      } else {
        LessTotal(key(x), key(s[0]));
        InsertByStrict(x, s[1..], key);
        var rest := InsertBy(x, s[1..], key);
        forall j | 0 <= j < |rest| ensures Less(key(s[0]), key(rest[j])) {
          assert rest[j] in multiset(rest);
          assert rest[j] == x || rest[j] in s[1..];
        }
      }
    }
  }

  lemma {:induction false} SortByStrict<T(!new)>(s: seq<T>, key: T -> string)
    requires DistinctKeys(s, key)
    ensures StrictlySortedBy(SortBy(s, key), key)
  {
    if s != [] {
      SortByStrict(s[1..], key);
      forall y | y in SortBy(s[1..], key) ensures key(y) != key(s[0]) {
        SortByMember(s[1..], key, y);
      }
      InsertByStrict(s[0], SortBy(s[1..], key), key);
    }
  }

  /** With distinct keys the sorted list does not depend on the order of the input. */
  lemma SortByOrderFree<T(!new)>(s: seq<T>, t: seq<T>, key: T -> string)
    requires DistinctKeys(s, key) && DistinctKeys(t, key) && multiset(s) == multiset(t)
    ensures SortBy(s, key) == SortBy(t, key)
  {
    SortByStrict(s, key);
    SortByStrict(t, key);
    StrictlySortedByUnique(SortBy(s, key), SortBy(t, key), key);
  }
}
