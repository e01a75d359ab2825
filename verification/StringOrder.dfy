/**
 The order in which the daemon's `BTreeMap` and `BTreeSet` containers are walked:
 strings compared scalar by scalar, a proper prefix coming first.
 */
module StringOrder {

  predicate Less(a: string, b: string) {
    b != [] && (a == [] || a[0] < b[0] || (a[0] == b[0] && Less(a[1..], b[1..])))
  }

  /** Where the two first differ, the lesser one has ended or has the lesser character. */
  ghost predicate DifferAt(a: string, b: string, i: nat) {
    i <= |a| && i < |b| && a[..i] == b[..i] && (i == |a| || a[i] < b[i])
  }

  lemma {:induction false} LessIsLexicographic(a: string, b: string)
    ensures Less(a, b) <==> exists i: nat :: DifferAt(a, b, i)
  {
    if a != [] && b != [] && a[0] == b[0] {
      LessIsLexicographic(a[1..], b[1..]);
      if i: nat :| DifferAt(a[1..], b[1..], i) {
        assert a[..i + 1] == [a[0]] + a[1..][..i] && b[..i + 1] == [b[0]] + b[1..][..i];
        assert DifferAt(a, b, i + 1);
      }
      if i: nat :| DifferAt(a, b, i) {
        assert i > 0;
        assert a[1..][..i - 1] == a[..i][1..] && b[1..][..i - 1] == b[..i][1..];
        assert DifferAt(a[1..], b[1..], i - 1);
      }
    } else {
      assert Less(a, b) ==> DifferAt(a, b, 0);
      assert forall i: nat | DifferAt(a, b, i) :: i == 0 || a[..i][0] == b[..i][0];
    }
  }

  lemma {:induction false} LessIsAsymmetric(a: string, b: string)
    ensures !(Less(a, b) && Less(b, a))
  {
    if a != [] && b != [] {
      LessIsAsymmetric(a[1..], b[1..]);
    }
  }

  lemma {:induction false} LessIsTotal(a: string, b: string)
    ensures a == b || Less(a, b) || Less(b, a)
  {
    if a != [] && b != [] {
      LessIsTotal(a[1..], b[1..]);
      assert a == [a[0]] + a[1..] && b == [b[0]] + b[1..];
    }
  }

  lemma {:induction false} LessIsTransitive(a: string, b: string, c: string)
    requires Less(a, b) && Less(b, c)
    ensures Less(a, c)
  {
    if a != [] && a[0] == b[0] && b[0] == c[0] {
      LessIsTransitive(a[1..], b[1..], c[1..]);
    }
  }

  ghost predicate IsLeast(least: string, s: set<string>) {
    least in s && forall x | x in s :: x == least || Less(least, x)
  }

  lemma {:induction false} LeastExists(s: set<string>)
    requires s != {}
    ensures exists least :: IsLeast(least, s)
  {
    var y :| y in s;
    if s == {y} {
      assert IsLeast(y, s);
    } else {
      LeastExists(s - {y});
      var rest :| IsLeast(rest, s - {y});
      LessIsTotal(y, rest);
      if Less(y, rest) {
        forall x | x in s && x != y ensures Less(y, x) {
          if x != rest { LessIsTransitive(y, rest, x); }
        }
        assert IsLeast(y, s);
      } else {
        assert IsLeast(rest, s);
      }
    }
  }

  /** The first key of a nonempty ordered container. */
  function Least(s: set<string>): (least: string)
    requires s != {}
    ensures least in s && forall x | x in s :: x == least || Less(least, x)
  {
    LeastExists(s);
    assert exists least :: least in s && forall x | x in s :: x == least || Less(least, x) by {
      var least :| IsLeast(least, s);
      assert least in s;
    }
    assert forall x, y | x in s && y in s && Less(x, y) :: !Less(y, x) by {
      forall x, y | x in s && y in s && Less(x, y) ensures !Less(y, x) { LessIsAsymmetric(x, y); }
    }
    var least :| least in s && forall x | x in s :: x == least || Less(least, x);
    least
  }

  predicate StrictlyIncreasing(r: seq<string>) {
    forall i, j | 0 <= i < j < |r| :: Less(r[i], r[j])
  }

  /** The keys of an ordered container, in the order in which it is walked. */
  function Sorted(s: set<string>): (r: seq<string>)
    ensures forall x :: x in r <==> x in s
  {
    if s == {} then [] else [Least(s)] + Sorted(s - {Least(s)})
  }

  lemma {:induction false} SortedIncreases(s: set<string>)
    ensures StrictlyIncreasing(Sorted(s))
  {
    if s != {} {
      SortedIncreases(s - {Least(s)});
    }
  }

  lemma SortedHasNoRepeats(s: set<string>)
    ensures forall i, j | 0 <= i < j < |Sorted(s)| :: Sorted(s)[i] != Sorted(s)[j]
  {
    SortedIncreases(s);
    var r := Sorted(s);
    forall i, j | 0 <= i < j < |r| ensures r[i] != r[j] {
      LessIsAsymmetric(r[i], r[j]);
    }
  }
}
