/** The stable ascending sort by `orderSellout` that `reorderOrderSellout`
    obtains from `Array.prototype.sort` with the comparator `a - b`
    (stable since ECMAScript 2019; `null` compares as 0). */
module Sorting {
  import opened Seqs
  import opened Products

  /** Non-decreasing by order value. */
  predicate SortedByOrder(s: seq<Product>) {
    forall i, j :: 0 <= i < j < |s| ==> OrderValue(s[i]) <= OrderValue(s[j])
  }

  /** The test "has order value k", used to state stability. */
  function HasOrder(k: int): Product -> bool {
    (p: Product) => OrderValue(p) == k
  }

  /** `x` inserted before the first element whose order value is not smaller. */
  function Insert(x: Product, s: seq<Product>): (r: seq<Product>)
    ensures |r| == |s| + 1
    ensures multiset(r) == multiset(s) + multiset{x}
    decreases |s|
  {
    if |s| == 0 then [x]
    else if OrderValue(x) <= OrderValue(s[0]) then [x] + s
    else
      assert s == [s[0]] + s[1..];
      [s[0]] + Insert(x, s[1..])
  }

  /** Insertion into a sorted list keeps it sorted. */
  lemma {:induction false} InsertSorted(x: Product, s: seq<Product>)
    requires SortedByOrder(s)
    ensures SortedByOrder(Insert(x, s))
    decreases |s|
  {
    if |s| > 0 && OrderValue(x) > OrderValue(s[0]) {
      InsertSorted(x, s[1..]);
      var r := Insert(x, s);
      var t := Insert(x, s[1..]);
      assert r == [s[0]] + t;
      forall i, j | 0 <= i < j < |r|
        ensures OrderValue(r[i]) <= OrderValue(r[j])
      {
        if i == 0 {
          assert r[j] in multiset(t);
          assert r[j] in multiset(s[1..]) + multiset{x};
          if r[j] != x {
            assert r[j] in s[1..];
          }
        }
      }
    }
  }

  /** Inserting `x` adds `x` to the key-`k` subsequence at its front when `x`
      has key `k`, and leaves that subsequence alone otherwise. */
  lemma {:induction false} InsertStable(x: Product, s: seq<Product>, k: int)
    ensures Filter(Insert(x, s), HasOrder(k))
         == (if OrderValue(x) == k then [x] + Filter(s, HasOrder(k)) else Filter(s, HasOrder(k)))
    decreases |s|
  {
    if |s| == 0 {
    } else if OrderValue(x) <= OrderValue(s[0]) {
      assert ([x] + s)[1..] == s;
    } else {
      InsertStable(x, s[1..], k);
      assert ([s[0]] + Insert(x, s[1..]))[1..] == Insert(x, s[1..]);
      if OrderValue(x) == k {
        assert !HasOrder(k)(s[0]);
      }
    }
  }

  /** Insertion adds exactly the inserted id to the multiset of ids. */
  lemma {:induction false} InsertIds(x: Product, s: seq<Product>)
    ensures multiset(Ids(Insert(x, s))) == multiset(Ids(s)) + multiset{x.id}
    decreases |s|
  {
    if |s| == 0 {
      assert Ids([x]) == [x.id];
    } else if OrderValue(x) <= OrderValue(s[0]) {
      IdsConcat([x], s);
      assert Ids([x]) == [x.id];
    } else {
      var t := Insert(x, s[1..]);
      InsertIds(x, s[1..]);
      IdsConcat([s[0]], s[1..]);
      IdsConcat([s[0]], t);
      assert Ids([s[0]]) == [s[0].id];
      assert s == [s[0]] + s[1..];
    }
  }

  /** Ids distribute over concatenation. */
  lemma IdsConcat(a: seq<Product>, b: seq<Product>)
    ensures Ids(a + b) == Ids(a) + Ids(b)
  {
  }

  /** The stable ascending sort by order value (insertion sort). */
  function SortByOrder(s: seq<Product>): (r: seq<Product>)
    ensures |r| == |s|
    ensures multiset(r) == multiset(s)
    decreases |s|
  {
    if |s| == 0 then []
    else
      assert s == [s[0]] + s[1..];
      Insert(s[0], SortByOrder(s[1..]))
  }

  /** The sort yields an ascending permutation of its input. */
  lemma {:induction false} SortSorted(s: seq<Product>)
    ensures SortedByOrder(SortByOrder(s))
    ensures multiset(SortByOrder(s)) == multiset(s)
    decreases |s|
  {
    if |s| > 0 {
      SortSorted(s[1..]);
      InsertSorted(s[0], SortByOrder(s[1..]));
    }
  }

  /** The sort is stable: products with equal order value keep their relative order. */
  lemma {:induction false} SortStable(s: seq<Product>, k: int)
    ensures Filter(SortByOrder(s), HasOrder(k)) == Filter(s, HasOrder(k))
    decreases |s|
  {
    if |s| > 0 {
      SortStable(s[1..], k);
      InsertStable(s[0], SortByOrder(s[1..]), k);
    }
  }

  /** The sort keeps the multiset of ids. */
  lemma {:induction false} SortIds(s: seq<Product>)
    ensures multiset(Ids(SortByOrder(s))) == multiset(Ids(s))
    decreases |s|
  {
    if |s| > 0 {
      SortIds(s[1..]);
      InsertIds(s[0], SortByOrder(s[1..]));
      IdsConcat([s[0]], s[1..]);
      assert Ids([s[0]]) == [s[0].id];
      assert s == [s[0]] + s[1..];
    }
  }
}
