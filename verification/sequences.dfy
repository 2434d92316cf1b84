/** Order-preserving filtering and the two array splices used by the to-do list,
    with the facts that relate them. */
module Sequences {

  /** `Array.prototype.filter` with a total predicate: the elements of `s` that satisfy `p`,
      in their original order. */
  function Keep<T(!new)>(s: seq<T>, p: T -> bool): (r: seq<T>)
    ensures |r| <= |s|
    ensures forall i :: 0 <= i < |r| ==> p(r[i])
  {
    if |s| == 0 then []
    else
      var rest := Keep(s[1..], p);
      if p(s[0]) then [s[0]] + rest else rest
  }

  /** Filtering keeps every qualifying element as often as it occurs and drops the others. */
  lemma {:induction false} KeepCount<T(!new)>(s: seq<T>, p: T -> bool)
    ensures forall x :: multiset(Keep(s, p))[x] == if p(x) then multiset(s)[x] else 0
    decreases |s|
  {
    if |s| > 0 {
      KeepCount(s[1..], p);
      assert s == [s[0]] + s[1..];
    }
  }

  /** `splice(i, 1)`: the sequence without its element at `i`. */
  function RemoveAt<T>(s: seq<T>, i: nat): (r: seq<T>)
    requires i < |s|
    ensures |r| == |s| - 1
    ensures multiset(r) + multiset{s[i]} == multiset(s)
    ensures forall k :: 0 <= k < i ==> r[k] == s[k]
    ensures forall k :: i <= k < |r| ==> r[k] == s[k + 1]
  {
    assert s == s[..i] + [s[i]] + s[i + 1..];
    s[..i] + s[i + 1..]
  }

  /** `splice(j, 0, x)`: the sequence with `x` inserted so that it lands at index `j`. */
  function InsertAt<T>(s: seq<T>, j: nat, x: T): (r: seq<T>)
    requires j <= |s|
    ensures |r| == |s| + 1
    ensures r[j] == x
    ensures multiset(r) == multiset(s) + multiset{x}
    ensures forall k :: 0 <= k < j ==> r[k] == s[k]
    ensures forall k :: j < k < |r| ==> r[k] == s[k - 1]
  {
    assert s == s[..j] + s[j..];
    s[..j] + [x] + s[j..]
  }

  /** A list move: take the element at `i` out and put it back so that it sits at `j`. */
  function Move<T>(s: seq<T>, i: nat, j: nat): (r: seq<T>)
    requires i < |s| && j < |s|
    ensures |r| == |s|
    ensures r[j] == s[i]
    ensures multiset(r) == multiset(s)
    ensures RemoveAt(r, j) == RemoveAt(s, i)
  {
    var r := InsertAt(RemoveAt(s, i), j, s[i]);
    assert RemoveAt(r, j) == RemoveAt(s, i);
    r
  }

  lemma {:induction false} KeepConcat<T(!new)>(a: seq<T>, b: seq<T>, p: T -> bool)
    ensures Keep(a + b, p) == Keep(a, p) + Keep(b, p)
    decreases |a|
  {
    if |a| == 0 {
      assert a + b == b;
    } else {
      assert (a + b)[1..] == a[1..] + b;
      KeepConcat(a[1..], b, p);
    }
  }

  /** Filtering keeps everything exactly when every element qualifies. */
  lemma {:induction false} KeepAll<T(!new)>(s: seq<T>, p: T -> bool)
    ensures Keep(s, p) == s <==> forall i :: 0 <= i < |s| ==> p(s[i])
    decreases |s|
  {
    if |s| > 0 {
      KeepAll(s[1..], p);
      if !p(s[0]) {
        assert |Keep(s, p)| <= |s[1..]| < |s|;
      }
    }
  }

  /** Filtering twice with the same predicate changes nothing the second time. */
  lemma KeepIdempotent<T(!new)>(s: seq<T>, p: T -> bool)
    ensures Keep(Keep(s, p), p) == Keep(s, p)
  {
  }

  /** Filtering a one-element sequence. */
  lemma KeepSingleton<T(!new)>(x: T, p: T -> bool)
    ensures Keep([x], p) == if p(x) then [x] else []
  {
  }

  /** Filtering distributes over a three-way split around one element. */
  lemma KeepSplit<T(!new)>(a: seq<T>, x: T, b: seq<T>, p: T -> bool)
    ensures Keep(a + [x] + b, p) == Keep(a, p) + (if p(x) then [x] else []) + Keep(b, p)
  {
    assert a + [x] + b == a + ([x] + b);
    KeepConcat(a, [x] + b, p);
    KeepConcat([x], b, p);
    KeepSingleton(x, p);
  }

  /** Removing an element that does not qualify leaves the filtered view alone; removing one
      that does removes it from the view at its rank, the number of qualifying elements before it. */
  lemma KeepRemoveAt<T(!new)>(s: seq<T>, i: nat, p: T -> bool)
    requires i < |s|
    ensures !p(s[i]) ==> Keep(RemoveAt(s, i), p) == Keep(s, p)
    ensures p(s[i]) ==>
      var c := |Keep(s[..i], p)|;
      c < |Keep(s, p)| && Keep(s, p)[c] == s[i] && Keep(RemoveAt(s, i), p) == RemoveAt(Keep(s, p), c)
  {
    var a, x, b := s[..i], s[i], s[i + 1..];
    assert s == a + [x] + b;
    assert RemoveAt(s, i) == a + b;
    KeepSplit(a, x, b, p);
    KeepConcat(a, b, p);
    if p(x) {
      RemoveMiddle(Keep(a, p), x, Keep(b, p));
    }
  }

  lemma RemoveMiddle<T>(a: seq<T>, x: T, b: seq<T>)
    ensures var k := a + [x] + b;
      k[|a|] == x && RemoveAt(k, |a|) == a + b
  {
  }

  /** Inserting an element that does not qualify leaves the filtered view alone; inserting one
      that does inserts it into the view at the rank of the insertion point. */
  lemma KeepInsertAt<T(!new)>(s: seq<T>, j: nat, x: T, p: T -> bool)
    requires j <= |s|
    ensures !p(x) ==> Keep(InsertAt(s, j, x), p) == Keep(s, p)
    ensures p(x) ==>
      var c := |Keep(s[..j], p)|;
      c <= |Keep(s, p)| && Keep(InsertAt(s, j, x), p) == InsertAt(Keep(s, p), c, x)
  {
    var a, b := s[..j], s[j..];
    assert s == a + b;
    assert InsertAt(s, j, x) == a + [x] + b;
    KeepSplit(a, x, b, p);
    KeepConcat(a, b, p);
    if p(x) {
      var ka, kb := Keep(a, p), Keep(b, p);
      assert InsertAt(ka + kb, |ka|, x) == ka + [x] + kb;
    }
  }

  /** Moving an element that does not qualify leaves the filtered view alone. */
  lemma KeepMoveOther<T(!new)>(s: seq<T>, i: nat, j: nat, p: T -> bool)
    requires i < |s| && j < |s|
    requires !p(s[i])
    ensures Keep(Move(s, i, j), p) == Keep(s, p)
  {
    KeepRemoveAt(s, i, p);
    KeepInsertAt(RemoveAt(s, i), j, s[i], p);
  }

  /** Moving a qualifying element from index `i` to index `j` moves it, inside the filtered
      view, from the rank of `i` to the rank of `j`. */
  lemma KeepMove<T(!new)>(s: seq<T>, i: nat, j: nat, p: T -> bool)
    requires i < |s| && j < |s|
    requires p(s[i]) && p(s[j])
    ensures
      var a, b := |Keep(s[..i], p)|, |Keep(s[..j], p)|;
      a < |Keep(s, p)| && b < |Keep(s, p)| && Keep(Move(s, i, j), p) == Move(Keep(s, p), a, b)
  {
    var a, b := |Keep(s[..i], p)|, |Keep(s[..j], p)|;
    var t := RemoveAt(s, i);
    KeepRemoveAt(s, i, p);
    KeepRemoveAt(s, j, p);
    KeepInsertAt(t, j, s[i], p);
    KeepRankAfterRemove(s, i, j, p);
    assert Keep(Move(s, i, j), p) == InsertAt(RemoveAt(Keep(s, p), a), b, s[i]);
  }

  /** The rank of index `j` survives the removal of a qualifying element at `i`: when `i < j`
      the removed element was counted before `j + 1` and `s[j]` itself now sits before `j`. */
  lemma KeepRankAfterRemove<T(!new)>(s: seq<T>, i: nat, j: nat, p: T -> bool)
    requires i < |s| && j < |s|
    requires p(s[i]) && p(s[j])
    ensures |Keep(RemoveAt(s, i)[..j], p)| == |Keep(s[..j], p)|
  {
    var t := RemoveAt(s, i);
    if i < j {
      var a, m := s[..i], s[i + 1..j + 1];
      assert s[..j + 1] == a + [s[i]] + m;
      assert s[..j + 1] == s[..j] + [s[j]] + [];
      assert t[..j] == a + m;
      KeepSplit(a, s[i], m, p);
      KeepSplit(s[..j], s[j], [], p);
      KeepConcat(a, m, p);
    } else {
      assert t[..j] == s[..j];
    }
  }
}
