/** Choosing common parameters (e2ewebsocket/tool_func.go, cipher_suites.go, common.go and
    the suite list of makeHello). */
module Negotiation {
  import opened Common
  import opened Cryptobyte

  /** The first element of `b` that `a` has, or zero. */
  function Intersect(a: seq<U16>, b: seq<U16>): U16 {
    if b == [] then 0 else if b[0] in a then b[0] else Intersect(a, b[1..])
  }

  method Intersection(a: seq<U16>, b: seq<U16>) returns (picked: U16)
    ensures picked == Intersect(a, b)
  {
    var elementMap: map<U16, ()> := map[];
    for i := 0 to |a|
      invariant forall x :: x in elementMap <==> x in a[..i]
    {
      elementMap := elementMap[a[i] := ()];
    }
    assert a[..|a|] == a;
    for i := 0 to |b|
      invariant Intersect(a, b) == Intersect(a, b[i..])
    {
      if b[i] in elementMap {
        return b[i];
      }
    }
    return 0;
  }

  function Position(pref: seq<U16>, x: U16): (p: nat)
    requires x in pref
    ensures p < |pref| && pref[p] == x
  {
    if pref[0] == x then 0 else 1 + Position(pref[1..], x)
  }

  /** All from `pref`, never an earlier one after a later one; repeats are allowed. */
  predicate DrawnFrom(pref: seq<U16>, xs: seq<U16>) {
    && (forall i :: 0 <= i < |xs| ==> xs[i] in pref)
    && (forall i, j :: 0 <= i < j < |xs| ==> Position(pref, xs[i]) <= Position(pref, xs[j]))
  }

  predicate Share(a: seq<U16>, b: seq<U16>) {
    exists x :: x in a && x in b
  }

  /** What is picked is common to both lists, and no common element is preferred to it. */
  lemma {:induction false} PicksMostPreferred(pref: seq<U16>, a: seq<U16>, b: seq<U16>)
    requires DrawnFrom(pref, b)
    ensures Share(a, b) ==>
              var x := Intersect(a, b);
              && x in a && x in b
              && forall y :: y in a && y in b ==> Position(pref, x) <= Position(pref, y)
    ensures !Share(a, b) ==> Intersect(a, b) == 0
  {
    if b != [] && b[0] in a {
      forall y | y in a && y in b ensures Position(pref, b[0]) <= Position(pref, y) {
        var i :| 0 <= i < |b| && b[i] == y;
      }
    } else if b != [] {
      assert b == [b[0]] + b[1..];
      PicksMostPreferred(pref, a, b[1..]);
    }
  }

  /** Both peers pick the same: from lists drawn from one preference list the choice does
      not depend on whose list is searched. */
  lemma IntersectSymmetric(pref: seq<U16>, a: seq<U16>, b: seq<U16>)
    requires DrawnFrom(pref, a) && DrawnFrom(pref, b)
    ensures Intersect(a, b) == Intersect(b, a)
  {
    PicksMostPreferred(pref, a, b);
    PicksMostPreferred(pref, b, a);
    if Share(a, b) {
      var x, y := Intersect(a, b), Intersect(b, a);
      assert Position(pref, x) == Position(pref, y);
    }
  }

  /** The first element of `a` that `b` has is at `i`. */
  predicate FirstCommon(a: seq<U16>, b: seq<U16>, i: nat) {
    i < |a| && a[i] in b && forall k :: 0 <= k < i ==> a[k] !in b
  }

  lemma {:induction false} IntersectIsFirst(a: seq<U16>, b: seq<U16>)
    ensures Share(a, b) ==> exists j: nat :: FirstCommon(b, a, j) && Intersect(a, b) == b[j]
    ensures !Share(a, b) ==> Intersect(a, b) == 0
  {
    if b != [] && b[0] in a {
      assert FirstCommon(b, a, 0);
    } else if b != [] {
      var rest := b[1..];
      assert b == [b[0]] + rest;
      IntersectIsFirst(a, rest);
      if Share(a, rest) {
        var j: nat :| FirstCommon(rest, a, j) && Intersect(a, rest) == rest[j];
        assert b[j + 1] == rest[j];
        assert forall k :: 0 < k < j + 1 ==> b[k] == rest[k - 1];
        assert FirstCommon(b, a, j + 1);
      }
    }
  }

  /** The lists share something, and the first shared element of one is not that of the
      other. */
  ghost predicate FavouritesDiffer(a: seq<U16>, b: seq<U16>) {
    Share(a, b) && !exists i: nat, j: nat :: FirstCommon(a, b, i) && FirstCommon(b, a, j) && a[i] == b[j]
  }

  /** For lists in any order the two sides pick the same unless their favourites differ. */
  lemma SymmetricExactlyWhen(a: seq<U16>, b: seq<U16>)
    ensures Intersect(a, b) == Intersect(b, a) <==> !FavouritesDiffer(a, b)
  {
    hide Intersect;
    IntersectIsFirst(a, b);
    IntersectIsFirst(b, a);
    if Share(a, b) {
      var x :| x in a && x in b;
      assert Share(b, a);
    }
    if Share(b, a) {
      var x :| x in b && x in a;
      assert Share(a, b);
    }
  }

  /** Such a pair: neither list's favourite is the other's. */
  lemma OrderMatters()
    ensures Intersect([1, 2], [2, 1]) == 2 && Intersect([2, 1], [1, 2]) == 1
  {
    assert [1, 2][1] == 2 && [2, 1][1] == 1;
  }

  lemma FirstRepeated(a: seq<U16>, b: seq<U16>)
    requires b != []
    ensures Intersect(a, [b[0]] + b) == Intersect(a, b)
  {
    assert ([b[0]] + b)[1..] == b;
  }

  /** A decoded version list starts with its first version once more, which changes
      nothing, so each side agrees with the other although only the other's is decoded. */
  lemma VersionsAgree(pref: seq<U16>, a: seq<U16>, b: seq<U16>)
    requires a != [] && b != []
    requires DrawnFrom(pref, a) && DrawnFrom(pref, b)
    ensures Intersect(a, [b[0]] + b) == Intersect(b, [a[0]] + a)
    ensures Intersect(a, [b[0]] + b) == Intersect(a, b)
  {
    FirstRepeated(a, b);
    FirstRepeated(b, a);
    IntersectSymmetric(pref, a, b);
  }

  // --- The hello's suite list -----------------------------------------------------------

  function SuiteList(preference: seq<U16>, configured: seq<U16>, known: set<U16>): seq<U16> {
    if preference == [] then []
    else SuiteList(Front(preference), configured, known)
         + if Last(preference) in configured && Last(preference) in known then [Last(preference)] else []
  }

  method MakeSuiteList(preference: seq<U16>, configured: seq<U16>, known: set<U16>) returns (suites: seq<U16>)
    ensures suites == SuiteList(preference, configured, known)
  {
    suites := [];
    for i := 0 to |preference|
      invariant suites == SuiteList(preference[..i], configured, known)
    {
      assert Front(preference[..i + 1]) == preference[..i];
      var found := HasSuite(configured, preference[i], known);
      if !found {
        continue;
      }
      suites := suites + [preference[i]];
    }
    assert preference[..|preference|] == preference;
  }

  method HasSuite(have: seq<U16>, want: U16, known: set<U16>) returns (found: bool)
    ensures found <==> want in have && want in known
  {
    for i := 0 to |have|
      invariant want !in have[..i]
    {
      if have[i] == want {
        return want in known;
      }
    }
    return false;
  }

  /** Whatever order the suites are configured in, the hello lists them by preference,
      without repeats, so that two peers' lists negotiate symmetrically. */
  lemma {:induction false} SuiteListDrawn(preference: seq<U16>, configured: seq<U16>, known: set<U16>)
    requires NoDuplicates(preference)
    ensures DrawnFrom(preference, SuiteList(preference, configured, known))
    ensures NoDuplicates(SuiteList(preference, configured, known))
    ensures forall x :: x in SuiteList(preference, configured, known)
                        <==> x in preference && x in configured && x in known
  {
    if preference != [] {
      var front, last := Front(preference), Last(preference);
      SuiteListDrawn(front, configured, known);
      assert preference == front + [last];
      var sofar := SuiteList(front, configured, known);
      forall x | x in front ensures Position(preference, x) == Position(front, x) && x != last {
        PositionPrefix(front, last, x);
      }
      PositionNew(front, last);
    }
  }

  lemma {:induction false} PositionPrefix(front: seq<U16>, last: U16, x: U16)
    requires x in front && NoDuplicates(front + [last])
    ensures Position(front + [last], x) == Position(front, x) && x != last
  {
    var all := front + [last];
    assert x != last by {
      var i :| 0 <= i < |front| && front[i] == x;
      assert all[i] == x && all[|front|] == last;
    }
    if front[0] != x {
      assert all[1..] == front[1..] + [last];
      forall i, j | 0 <= i < j < |all[1..]| ensures all[1..][i] != all[1..][j] {
        assert all[i + 1] != all[j + 1];
      }
      PositionPrefix(front[1..], last, x);
    }
  }

  lemma {:induction false} PositionNew(front: seq<U16>, last: U16)
    requires last !in front
    ensures Position(front + [last], last) == |front|
  {
    if front != [] {
      assert (front + [last])[1..] == front[1..] + [last];
      PositionNew(front[1..], last);
    }
  }
}
