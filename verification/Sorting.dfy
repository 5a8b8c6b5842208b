/** What `std::sort` promises, as a specification function, and why the promise fixes the result. */
module Sorting {
  import opened Common

  ghost predicate TotalPreorder<T(!new)>(leq: (T, T) -> bool) {
    && (forall x, y :: leq(x, y) || leq(y, x))
    && (forall x, y, z :: leq(x, y) && leq(y, z) ==> leq(x, z))
  }

  ghost predicate SortedBy<T>(s: seq<T>, leq: (T, T) -> bool) {
    forall i, j | 0 <= i < j < |s| :: leq(s[i], s[j])
  }

  function Insert<T>(x: T, s: seq<T>, leq: (T, T) -> bool): (r: seq<T>)
    ensures multiset(r) == multiset{x} + multiset(s)
  {
    if s == [] || leq(x, s[0]) then [x] + s
    else
      assert s == [s[0]] + s[1..];
      [s[0]] + Insert(x, s[1..], leq)
  }

  function Sort<T>(s: seq<T>, leq: (T, T) -> bool): (r: seq<T>)
    ensures multiset(r) == multiset(s)
    ensures |r| == |s|
  {
    if s == [] then []
    else
      assert s == [s[0]] + s[1..];
      var r := Insert(s[0], Sort(s[1..], leq), leq);
      assert |multiset(r)| == |r| && |multiset(s)| == |s|;
      r
  }

  lemma {:induction false} InsertKeepsSorted<T(!new)>(x: T, s: seq<T>, leq: (T, T) -> bool)
    requires TotalPreorder(leq) && SortedBy(s, leq)
    ensures SortedBy(Insert(x, s, leq), leq)
  {
    if s != [] && !leq(x, s[0]) {
      var rest := Insert(x, s[1..], leq);
      InsertKeepsSorted(x, s[1..], leq);
      forall j | 0 <= j < |rest|
        ensures leq(s[0], rest[j])
      {
        assert rest[j] in multiset(rest);
        assert rest[j] == x || rest[j] in s[1..];
      }
    }
  }

  lemma {:induction false} SortSorts<T(!new)>(s: seq<T>, leq: (T, T) -> bool)
    requires TotalPreorder(leq)
    ensures SortedBy(Sort(s, leq), leq)
    ensures Elements(Sort(s, leq)) == Elements(s)
    ensures NoDuplicates(s) ==> NoDuplicates(Sort(s, leq))
  {
    if s != [] {
      SortSorts(s[1..], leq);
      InsertKeepsSorted(s[0], Sort(s[1..], leq), leq);
    }
    forall x
      ensures x in Sort(s, leq) <==> x in s
    {
      assert x in multiset(Sort(s, leq)) <==> x in multiset(s);
    }
    ElementsSize(s);
    ElementsSize(Sort(s, leq));
  }

  /** Two ascending duplicate-free sequences over the same elements are equal, so the order in
      which an unordered container was walked before sorting leaves no trace. */
  lemma {:induction false} SortedIsUnique<T(!new)>(a: seq<T>, b: seq<T>, leq: (T, T) -> bool)
    requires SortedBy(a, leq) && SortedBy(b, leq) && NoDuplicates(a) && NoDuplicates(b)
    requires forall x, y | x in a && y in a && leq(x, y) && leq(y, x) :: x == y
    requires Elements(a) == Elements(b)
    ensures a == b
  {
    if a == [] {
      assert forall i | 0 <= i < |b| :: b[i] in Elements(a);
    } else {
      assert a[0] in Elements(b) && b != [];
      assert b[0] in Elements(a);
      var i :| 0 <= i < |a| && a[i] == b[0];
      var j :| 0 <= j < |b| && b[j] == a[0];
      assert a[0] == b[0];
      forall x
        ensures x in a[1..] <==> x in b[1..]
      {
        assert x in a <==> x in b by { assert x in Elements(a) <==> x in Elements(b); }
        assert x in a[1..] <==> x in a && x != a[0];
        assert x in b[1..] <==> x in b && x != b[0];
      }
      assert Elements(a[1..]) == Elements(b[1..]);
      SortedIsUnique(a[1..], b[1..], leq);
    }
  }

  /** `operator<=` of `std::string`. */
  predicate LexLeq(a: string, b: string) {
    a == [] || (b != [] && (a[0] < b[0] || (a[0] == b[0] && LexLeq(a[1..], b[1..]))))
  }

  lemma LexLeqIsTotal(a: string, b: string)
    ensures LexLeq(a, b) || LexLeq(b, a)
    ensures LexLeq(a, b) && LexLeq(b, a) ==> a == b
  {
    if a != [] && b != [] && a[0] == b[0] {
      LexLeqIsTotal(a[1..], b[1..]);
      assert a == [a[0]] + a[1..] && b == [b[0]] + b[1..];
    }
  }

  lemma {:induction false} LexLeqIsTransitive(a: string, b: string, c: string)
    requires LexLeq(a, b) && LexLeq(b, c)
    ensures LexLeq(a, c)
  {
    if a != [] && a[0] == b[0] == c[0] {
      LexLeqIsTransitive(a[1..], b[1..], c[1..]);
    }
  }

  lemma LexOrder()
    ensures TotalPreorder(LexLeq)
  {
    forall x, y ensures LexLeq(x, y) || LexLeq(y, x) { LexLeqIsTotal(x, y); }
    forall x, y, z | LexLeq(x, y) && LexLeq(y, z) ensures LexLeq(x, z) { LexLeqIsTransitive(x, y, z); }
  }

  /** The keys of a `std::map<std::string, _>` in iteration order. */
  ghost predicate InKeyOrder(order: seq<string>, keys: set<string>) {
    SortedBy(order, LexLeq) && NoDuplicates(order) && Elements(order) == keys
  }

  lemma KeyOrderIsUnique(a: seq<string>, b: seq<string>, keys: set<string>)
    requires InKeyOrder(a, keys) && InKeyOrder(b, keys)
    ensures a == b
  {
    forall x, y | x in a && y in a && LexLeq(x, y) && LexLeq(y, x) ensures x == y { LexLeqIsTotal(x, y); }
    SortedIsUnique(a, b, LexLeq);
  }

  lemma {:induction false} KeyOrderExists(keys: set<string>) returns (order: seq<string>)
    ensures InKeyOrder(order, keys)
  {
    if keys == {} {
      order := [];
    } else {
      var k :| k in keys;
      var rest := KeyOrderExists(keys - {k});
      assert k !in Elements(rest);
      assert Elements(rest + [k]) == Elements(rest) + {k};
      LexOrder();
      SortSorts(rest + [k], LexLeq);
      order := Sort(rest + [k], LexLeq);
    }
  }

  method KeysInOrder(keys: set<string>) returns (order: seq<string>)
    ensures InKeyOrder(order, keys)
  {
    var todo, found := keys, [];
    while todo != {}
      invariant NoDuplicates(found) && Elements(found) + todo == keys && Elements(found) !! todo
      decreases todo
    {
      var k :| k in todo;
      assert k !in Elements(found);
      assert Elements(found + [k]) == Elements(found) + {k};
      todo, found := todo - {k}, found + [k];
    }
    LexOrder();
    SortSorts(found, LexLeq);
    order := Sort(found, LexLeq);
  }
}
