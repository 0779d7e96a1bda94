/** Python's `sorted(names)`: strings compared code point by code point. */
module NameOrder {
  import opened Prelude

  predicate Less(a: string, b: string) {
    if b == [] then false
    else if a == [] then true
    else a[0] < b[0] || (a[0] == b[0] && Less(a[1..], b[1..]))
  }

  /** Code point by code point: a proper beginning comes first, otherwise the first difference decides. */
  lemma {:induction false} LessAtFirstDifference(a: string, b: string, k: nat)
    requires k <= |a| && k <= |b| && a[..k] == b[..k] && (k < |a| && k < |b| ==> a[k] != b[k])
    ensures Less(a, b) <==> k < |b| && (k == |a| || (k < |a| && a[k] < b[k]))
  {
    if k > 0 {
      assert a[0] == a[..k][0] && b[0] == b[..k][0];
      assert a[1..][..k - 1] == a[..k][1..] && b[1..][..k - 1] == b[..k][1..];
      LessAtFirstDifference(a[1..], b[1..], k - 1);
    }
  }

  lemma {:induction false} LessTotal(a: string, b: string)
    ensures Less(a, b) || a == b || Less(b, a)
  {
    if a != [] && b != [] && a[0] == b[0] {
      LessTotal(a[1..], b[1..]);
      assert a == [a[0]] + a[1..] && b == [b[0]] + b[1..];
    }
  }

  lemma {:induction false} LessIrreflexive(a: string)
    ensures !Less(a, a)
  {
    if a != [] { LessIrreflexive(a[1..]); }
  }

  lemma {:induction false} LessTransitive(a: string, b: string, c: string)
    requires Less(a, b) && Less(b, c)
    ensures Less(a, c)
  {
    if a != [] && a[0] == b[0] && b[0] == c[0] {
      LessTransitive(a[1..], b[1..], c[1..]);
    }
  }

  ghost predicate Ascending(s: seq<string>) {
    forall i, j :: 0 <= i < j < |s| ==> Less(s[i], s[j])
  }

  /** `s` lists exactly the members of `names`, in ascending order. */
  ghost predicate Lists(s: seq<string>, names: set<string>) {
    && Ascending(s)
    && (forall n :: n in names <==> n in s)
  }

  lemma AscendingIsDistinct(s: seq<string>)
    requires Ascending(s)
    ensures Distinct(s)
  {
    forall i, j | 0 <= i < j < |s| ensures s[i] != s[j] { LessIrreflexive(s[i]); }
  }

  /** Sorting has one answer, so everything computed from the sorted list is deterministic. */
  lemma {:induction false} ListsUnique(s: seq<string>, t: seq<string>, names: set<string>)
    requires Lists(s, names) && Lists(t, names)
    ensures s == t
    decreases |s|
  {
    assert |t| > 0 ==> t[0] in t;
    if s != [] {
      assert s[0] in names && s[0] in t;
      assert t[0] in t && t[0] in s;
      if s[0] != t[0] {
        var i :| 0 <= i < |t| && t[i] == s[0];
        var j :| 0 <= j < |s| && s[j] == t[0];
        LessTransitive(s[0], t[0], s[0]);
        LessIrreflexive(s[0]);
      }
      ListsTail(s, names);
      ListsTail(t, names);
      ListsUnique(s[1..], t[1..], names - {s[0]});
      assert s == [s[0]] + s[1..] && t == [t[0]] + t[1..];
    }
  }

  lemma ListsTail(s: seq<string>, names: set<string>)
    requires s != [] && Lists(s, names)
    ensures Lists(s[1..], names - {s[0]})
  {
    AscendingIsDistinct(s);
    forall n ensures n in names - {s[0]} <==> n in s[1..] {
      if n in s {
        var i :| 0 <= i < |s| && s[i] == n;
        if i > 0 { assert s[1..][i - 1] == n; }
      }
    }
  }

  /** The sorted list of a set of names, as the one sequence that lists it. */
  ghost function Sorted(names: set<string>): (s: seq<string>)
    ensures Lists(s, names)
  {
    SortedExists(names);
    var s :| Lists(s, names);
    s
  }

  lemma {:induction false} SortedExists(names: set<string>)
    ensures exists s :: Lists(s, names)
    decreases names
  {
    if names == {} {
      assert Lists([], names);
    } else {
      var m := Minimum(names);
      SortedExists(names - {m});
      var rest :| Lists(rest, names - {m});
      assert forall i :: 0 <= i < |rest| ==> rest[i] in rest;
      assert Lists([m] + rest, names);
    }
  }

  lemma {:induction false} Minimum(names: set<string>) returns (m: string)
    requires names != {}
    ensures m in names && forall n :: n in names && n != m ==> Less(m, n)
    decreases names
  {
    m :| m in names;
    if names != {m} {
      var k := Minimum(names - {m});
      LessTotal(m, k);
      if Less(k, m) {
        m := k;
      } else {
        forall n | n in names && n != m ensures Less(m, n) {
          if n != k { LessTransitive(m, k, n); }
        }
      }
    }
  }

  /** Selection sort over the set. */
  method SortNames(names: set<string>) returns (s: seq<string>)
    ensures s == Sorted(names)
  {
    s := [];
    var rest := names;
    while rest != {}
      invariant rest <= names
      invariant Lists(s, names - rest)
      invariant forall a, b :: a in s && b in rest ==> Less(a, b)
      decreases rest
    {
      var m :| m in rest;
      var todo := rest - {m};
      while todo != {}
        invariant todo <= rest && m in rest && m !in todo
        invariant forall n :: n in rest && n !in todo && n != m ==> Less(m, n)
        decreases todo
      {
        var c :| c in todo;
        LessTotal(m, c);
        if Less(c, m) {
          forall n | n in rest && n !in todo && n != m ensures Less(c, n) { LessTransitive(c, m, n); }
          m := c;
        }
        todo := todo - {c};
      }
      s := s + [m];
      rest := rest - {m};
    }
    assert names - rest == names;
    ListsUnique(s, Sorted(names), names);
  }
}
