/** Small sequence helpers shared by the store and cache models. */
module Seqs {

  /** The elements of `s` that satisfy `keep`, in their original order. */
  function Filter<T(!new)>(s: seq<T>, keep: T -> bool): (r: seq<T>)
    ensures |r| <= |s|
    ensures forall x :: x in r <==> x in s && keep(x)
    ensures forall i :: 0 <= i < |r| ==> keep(r[i])
    decreases |s|
  {
    if |s| == 0 then []
    else if keep(s[0]) then [s[0]] + Filter(s[1..], keep)
    else Filter(s[1..], keep)
  }

  /** `Filter` keeps everything when every element passes. */
  lemma {:induction false} FilterAll<T(!new)>(s: seq<T>, keep: T -> bool)
    requires forall i :: 0 <= i < |s| ==> keep(s[i])
    ensures Filter(s, keep) == s
    decreases |s|
  {
    if |s| > 0 {
      FilterAll(s[1..], keep);
    }
  }

  /** Filtering distributes over concatenation. */
  lemma {:induction false} FilterConcat<T(!new)>(a: seq<T>, b: seq<T>, keep: T -> bool)
    ensures Filter(a + b, keep) == Filter(a, keep) + Filter(b, keep)
    decreases |a|
  {
    if |a| > 0 {
      assert (a + b)[1..] == a[1..] + b;
      FilterConcat(a[1..], b, keep);
    } else {
      assert a + b == b;
    }
  }

  /** `Filter` keeps nothing when no element passes. */
  lemma FilterNone<T(!new)>(s: seq<T>, keep: T -> bool)
    requires forall i :: 0 <= i < |s| ==> !keep(s[i])
    ensures Filter(s, keep) == []
  {
  }

  /** A relation that holds between every earlier and later element of `s`
      still holds in any filtered copy: filtering keeps the order. */
  lemma {:induction false} FilterKeepsPairwise<T(!new)>(s: seq<T>, keep: T -> bool, rel: (T, T) -> bool)
    requires forall i, j :: 0 <= i < j < |s| ==> rel(s[i], s[j])
    ensures forall i, j :: 0 <= i < j < |Filter(s, keep)| ==> rel(Filter(s, keep)[i], Filter(s, keep)[j])
    decreases |s|
  {
    if |s| > 0 {
      FilterKeepsPairwise(s[1..], keep, rel);
      var rest := Filter(s[1..], keep);
      if keep(s[0]) {
        var r := [s[0]] + rest;
        forall i, j | 0 <= i < j < |r| ensures rel(r[i], r[j]) {
          if i == 0 {
            assert r[j] in rest;
            var k :| 0 <= k < |s[1..]| && s[1..][k] == r[j];
            assert s[k + 1] == r[j] && r[0] == s[0];
            assert rel(s[0], s[k + 1]);
          } else {
            assert r[i] == rest[i - 1] && r[j] == rest[j - 1];
            assert rel(rest[i - 1], rest[j - 1]);
          }
        }
      }
    }
  }

  /** The number of elements of `s` that satisfy `p`. */
  function Count<T>(s: seq<T>, p: T -> bool): (n: nat)
    ensures n <= |s|
    ensures n == 0 <==> forall i :: 0 <= i < |s| ==> !p(s[i])
    decreases |s|
  {
    if |s| == 0 then 0 else (if p(s[0]) then 1 else 0) + Count(s[1..], p)
  }

  predicate NoDuplicates<T(==)>(s: seq<T>) {
    forall i, j :: 0 <= i < j < |s| ==> s[i] != s[j]
  }

  /** A duplicate-free listing of a set has as many elements as the set. */
  lemma DistinctCount<T>(order: seq<T>, ids: set<T>)
    requires NoDuplicates(order) && forall id :: id in order <==> id in ids
    ensures |order| == |ids|
  {
    if |order| > 0 {
      var rest := order[1..];
      assert forall id :: id in rest <==> id in ids - {order[0]} by {
        forall id ensures id in rest <==> id in ids - {order[0]} {
          if id in rest {
            var j :| 0 <= j < |rest| && rest[j] == id;
            assert order[j + 1] != order[0];
          }
          if id in ids - {order[0]} {
            var j :| 0 <= j < |order| && order[j] == id;
            assert j != 0;
            assert rest[j - 1] == id;
          }
        }
      }
      DistinctCount(rest, ids - {order[0]});
    }
  }

  /** A page of `rows` as SQLite's `LIMIT ? OFFSET ?` cuts it: a negative
      offset counts as zero and a negative limit means no limit. */
  function Page<T>(rows: seq<T>, limit: int, offset: int): (r: seq<T>)
    ensures limit >= 0 ==> |r| <= limit
    ensures var start := if offset < 0 then 0 else if offset > |rows| then |rows| else offset;
      r <= rows[start..] &&
      (|r| == |rows| - start || (limit >= 0 && |r| == limit))
  {
    var start := if offset < 0 then 0 else if offset > |rows| then |rows| else offset;
    var rest := rows[start..];
    if limit < 0 || limit >= |rest| then rest else rest[..limit]
  }

  /** A page holds elements of the rows only, keeps them distinct, and is all
      of the rows when neither a limit nor an offset applies. */
  lemma PageOf<T>(rows: seq<T>, limit: int, offset: int)
    ensures forall x :: x in Page(rows, limit, offset) ==> x in rows
    ensures NoDuplicates(rows) ==> NoDuplicates(Page(rows, limit, offset))
    ensures limit < 0 && offset <= 0 ==> Page(rows, limit, offset) == rows
  {
    var start := if offset < 0 then 0 else if offset > |rows| then |rows| else offset;
    var r := Page(rows, limit, offset);
    assert forall i :: 0 <= i < |r| ==> r[i] == rows[start + i];
  }

  /** The position of the first element of `s` that satisfies `p`, or `|s|`. */
  function FirstIndex<T>(s: seq<T>, p: T -> bool): (i: nat)
    ensures i <= |s|
    ensures forall j :: 0 <= j < i ==> !p(s[j])
    ensures i < |s| ==> p(s[i])
    decreases |s|
  {
    if |s| == 0 || p(s[0]) then 0 else 1 + FirstIndex(s[1..], p)
  }
}
