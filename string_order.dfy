/**
 * Python's ordering of `str` values. The program never sorts strings itself, but two
 * library calls it relies on do: `MultiLabelBinarizer` keeps its classes sorted, and a
 * LightGBM classifier keeps `classes_` sorted. This module states that order and the
 * facts about sorted label lists the rest of the model needs.
 */
module StringOrder {

  /** `a < b` on Python strings: code point by code point, a proper prefix first. */
  predicate Less(a: string, b: string)
    decreases |a|
  {
    if |a| == 0 then |b| > 0
    else if |b| == 0 then false
    else if a[0] != b[0] then a[0] < b[0]
    else Less(a[1..], b[1..])
  }

  lemma {:induction false} LessIrreflexive(a: string)
    ensures !Less(a, a)
    decreases |a|
  {
    if |a| > 0 {
      LessIrreflexive(a[1..]);
    }
  }

  lemma {:induction false} LessTransitive(a: string, b: string, c: string)
    requires Less(a, b) && Less(b, c)
    ensures Less(a, c)
    decreases |a|
  {
    if |a| > 0 && a[0] == b[0] && b[0] == c[0] {
      LessTransitive(a[1..], b[1..], c[1..]);
    }
  }

  lemma LessAsymmetric(a: string, b: string)
    ensures Less(a, b) ==> !Less(b, a)
  {
    if Less(a, b) && Less(b, a) {
      LessTransitive(a, b, a);
      LessIrreflexive(a);
    }
  }

  /** A proper prefix comes before the longer string. */
  lemma {:induction false} PrefixLess(a: string, b: string)
    requires |a| < |b| && a == b[..|a|]
    ensures Less(a, b)
    decreases |a|
  {
    if |a| > 0 {
      assert a[1..] == b[1..][..|a| - 1];
      PrefixLess(a[1..], b[1..]);
    }
  }

  /** Every earlier element is strictly smaller than every later one (so there are no repeats). */
  predicate StrictlySorted(s: seq<string>)
  {
    forall i, j :: 0 <= i < j < |s| ==> Less(s[i], s[j])
  }

  /** A list whose neighbours are in order is sorted throughout. */
  lemma {:induction false} NeighboursSorted(s: seq<string>)
    requires forall i :: 0 <= i < |s| - 1 ==> Less(s[i], s[i + 1])
    ensures StrictlySorted(s)
    decreases |s|
  {
    if |s| > 1 {
      NeighboursSorted(s[1..]);
      forall j | 1 < j < |s| ensures Less(s[0], s[j]) {
        assert Less(s[1..][0], s[1..][j - 1]);
        LessTransitive(s[0], s[1], s[j]);
      }
    }
  }

  /** `s` is what `sorted(set(elems))` gives in Python. */
  ghost predicate SortedSetOf(s: seq<string>, elems: set<string>)
  {
    StrictlySorted(s) && forall x :: x in s <==> x in elems
  }

  lemma SortedHasNoRepeats(s: seq<string>, i: nat, j: nat)
    requires StrictlySorted(s) && i < j < |s|
    ensures s[i] != s[j]
  {
    LessIrreflexive(s[i]);
  }

  /** The first element of a sorted list is below every other element of it. */
  lemma SortedHeadIsLeast(s: seq<string>, x: string)
    requires StrictlySorted(s) && x in s
    ensures x == s[0] || Less(s[0], x)
  {
  }

  /** The tail of a sorted listing of `elems` lists `elems` without its least element. */
  lemma SortedTail(s: seq<string>, elems: set<string>)
    requires SortedSetOf(s, elems) && s != []
    ensures SortedSetOf(s[1..], elems - {s[0]})
  {
    forall j | 0 < j < |s| ensures s[j] != s[0] { SortedHasNoRepeats(s, 0, j); }
    forall x ensures x in s[1..] <==> x in elems - {s[0]} {
      if x in s[1..] {
        var j :| 0 <= j < |s[1..]| && s[1..][j] == x;
        assert s[j + 1] == x;
      }
      if x in elems - {s[0]} {
        var j :| 0 <= j < |s| && s[j] == x;
        assert s[1..][j - 1] == x;
      }
    }
  }

  /** A set has exactly one sorted listing: the class order is fixed by the labels alone. */
  lemma {:induction false} SortedSetUnique(a: seq<string>, b: seq<string>, elems: set<string>)
    requires SortedSetOf(a, elems) && SortedSetOf(b, elems)
    ensures a == b
    decreases |a|
  {
    assert a != [] ==> a[0] in b;
    assert b != [] ==> b[0] in a;
    if a != [] {
      SortedHeadIsLeast(b, a[0]);
      SortedHeadIsLeast(a, b[0]);
      LessAsymmetric(a[0], b[0]);
      SortedTail(a, elems);
      SortedTail(b, elems);
      SortedSetUnique(a[1..], b[1..], elems - {a[0]});
      assert a == [a[0]] + a[1..] && b == [b[0]] + b[1..];
    }
  }

  /** A sorted list drawn from `elems` is no longer than `elems` is large. */
  lemma {:induction false} SortedLengthBound(s: seq<string>, elems: set<string>)
    requires StrictlySorted(s) && forall x :: x in s ==> x in elems
    ensures |s| <= |elems|
    decreases |s|
  {
    if s != [] {
      forall j | 0 < j < |s| ensures s[j] != s[0] { SortedHasNoRepeats(s, 0, j); }
      assert forall x :: x in s[1..] ==> x in elems - {s[0]} by {
        forall x | x in s[1..] ensures x in elems - {s[0]} {
          var j :| 0 <= j < |s[1..]| && s[1..][j] == x;
          assert s[j + 1] == x;
        }
      }
      SortedLengthBound(s[1..], elems - {s[0]});
    }
  }

  /** The members of `order` that are in `present`, kept in the order of `order`. */
  function Restrict(order: seq<string>, present: set<string>): (r: seq<string>)
    ensures forall x :: x in r <==> x in order && x in present
    ensures StrictlySorted(order) ==> StrictlySorted(r)
  {
    if order == [] then []
    else
      var tail := Restrict(order[1..], present);
      assert StrictlySorted(order) ==> forall x :: x in tail ==> Less(order[0], x) by {
        if StrictlySorted(order) {
          forall x | x in tail ensures Less(order[0], x) {
            var j :| 0 <= j < |order[1..]| && order[1..][j] == x;
            assert order[j + 1] == x;
          }
        }
      }
      if order[0] in present then [order[0]] + tail else tail
  }
}
