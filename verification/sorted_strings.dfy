/** A `java.util.TreeSet<String>` as a value: the strictly increasing sequence
    of its elements under `compareTo` order, which is also its iteration order. */
module SortedStrings {
  import opened JavaStrings

  predicate StrictlySorted(xs: seq<string>)
  {
    forall i, j :: 0 <= i < j < |xs| ==> Less(xs[i], xs[j])
  }

  /** `TreeSet.add`: the element lands at its place in the order, and adding
      an element already present changes nothing. */
  function Insert(xs: seq<string>, x: string): (r: seq<string>)
    requires StrictlySorted(xs)
    ensures StrictlySorted(r)
    ensures forall e :: e in r <==> e in xs || e == x
  {
    if |xs| == 0 then [x]
    else if x == xs[0] then xs
    else if Less(x, xs[0]) then
      assert forall j :: 0 < j < |[x] + xs| ==> Less(x, ([x] + xs)[j]) by {
        forall j | 0 < j < |[x] + xs|
          ensures Less(x, ([x] + xs)[j])
        {
          if j > 1 {
            LessTransitive(x, xs[0], xs[j - 1]);
          }
        }
      }
      [x] + xs
    else
      LessTotal(x, xs[0]);
      var tail := Insert(xs[1..], x);
      assert forall e :: e in tail ==> Less(xs[0], e);
      [xs[0]] + tail
  }

  /** `new TreeSet<>(Arrays.asList(xs))` */
  function TreeSetOf(xs: seq<string>): (r: seq<string>)
    ensures StrictlySorted(r)
    ensures forall e :: e in r <==> e in xs
  {
    if |xs| == 0 then []
    else
      var r := Insert(TreeSetOf(xs[..|xs| - 1]), xs[|xs| - 1]);
      assert xs == xs[..|xs| - 1] + [xs[|xs| - 1]];
      r
  }

  /** Removes, in iteration order, the elements `keep` rejects; what remains
      keeps its order. */
  function Filter(xs: seq<string>, keep: string -> bool): (r: seq<string>)
    ensures forall e :: e in r <==> e in xs && keep(e)
    ensures StrictlySorted(xs) ==> StrictlySorted(r)
  {
    if |xs| == 0 then []
    else
      var tail := Filter(xs[1..], keep);
      if keep(xs[0]) then
        assert StrictlySorted(xs) ==> forall e :: e in tail ==> Less(xs[0], e);
        [xs[0]] + tail
      else tail
  }

  /** A sorted set has exactly one representation: two strictly sorted
      sequences with the same elements are equal. */
  lemma {:induction false} SortedUnique(a: seq<string>, b: seq<string>)
    requires StrictlySorted(a) && StrictlySorted(b)
    requires forall e :: e in a <==> e in b
    ensures a == b
  {
    assert |a| > 0 ==> a[0] in b;
    assert |b| > 0 ==> b[0] in a;
    if |a| > 0 && |b| > 0 {
      // each head occurs in the other sequence; if neither sat at the front,
      // each would be smaller than the other
      var k :| 0 <= k < |b| && b[k] == a[0];
      var m :| 0 <= m < |a| && a[m] == b[0];
      if k > 0 && m > 0 {
        LessAsymmetric(b[0], a[0]);
      }
      assert a[0] == b[0];
      forall e
        ensures e in a[1..] <==> e in b[1..]
      {
        if e in a[1..] {
          var i :| 1 <= i < |a| && a[i] == e;
          LessIrreflexive(e);
          assert e in a && e in b;
          var j :| 0 <= j < |b| && b[j] == e;
          assert b[1..][j - 1] == e;
        }
        if e in b[1..] {
          var i :| 1 <= i < |b| && b[i] == e;
          LessIrreflexive(e);
          assert e in b && e in a;
          var j :| 0 <= j < |a| && a[j] == e;
          assert a[1..][j - 1] == e;
        }
      }
      SortedUnique(a[1..], b[1..]);
      assert a == [a[0]] + a[1..] && b == [b[0]] + b[1..];
    }
  }
}
