// Strings in byte order, and the one way to list a set of them in that order.
module Names {
  predicate Less(a: string, b: string)
  {
    if b == "" then false
    else if a == "" then true
    else a[0] < b[0] || (a[0] == b[0] && Less(a[1..], b[1..]))
  }

  lemma {:induction false} LessTransitive(a: string, b: string, c: string)
    requires Less(a, b) && Less(b, c)
    ensures Less(a, c)
  {
    if a != "" && a[0] == b[0] && b[0] == c[0] {
      LessTransitive(a[1..], b[1..], c[1..]);
    }
  }

  lemma {:induction false} LessTotal(a: string, b: string)
    ensures Less(a, b) || a == b || Less(b, a)
  {
    if a != "" && b != "" && a[0] == b[0] {
      LessTotal(a[1..], b[1..]);
      assert a == [a[0]] + a[1..] && b == [b[0]] + b[1..];
    }
  }

  lemma {:induction false} LessIrreflexive(a: string)
    ensures !Less(a, a)
  {
    if a != "" {
      LessIrreflexive(a[1..]);
    }
  }

  predicate Ascending(s: seq<string>)
  {
    forall i, j :: 0 <= i < j < |s| ==> Less(s[i], s[j])
  }

  lemma NoMembers(a: seq<string>)
    ensures a == [] <==> forall x :: x !in a
  {
    assert a == [] || a[0] in a;
  }

  // An ascending listing is determined by what it lists.
  lemma {:induction false} AscendingUnique(a: seq<string>, b: seq<string>)
    requires Ascending(a) && Ascending(b) && forall x :: x in a <==> x in b
    ensures a == b
    decreases |a|
  {
    if a == [] || b == [] {
      NoMembers(if a == [] then b else a);
    } else {
      assert a[0] in b && b[0] in a;
      if a[0] != b[0] {
        LessTransitive(a[0], b[0], a[0]);
        LessIrreflexive(a[0]);
      }
      TailListsRest(a);
      TailListsRest(b);
      AscendingUnique(a[1..], b[1..]);
      assert a == [a[0]] + a[1..] && b == [b[0]] + b[1..];
    }
  }

  lemma TailListsRest(a: seq<string>)
    requires Ascending(a) && a != []
    ensures Ascending(a[1..]) && forall x :: x in a[1..] <==> x in a && x != a[0]
  {
    assert a == [a[0]] + a[1..];
    LessIrreflexive(a[0]);
    assert forall i :: 0 <= i < |a[1..]| ==> a[1..][i] == a[i + 1] && Less(a[0], a[i + 1]);
  }

  // s lists exactly these names in order.
  ghost predicate Lists(s: seq<string>, names: set<string>)
  {
    Ascending(s) && forall x :: x in s <==> x in names
  }

  lemma ListsUnique(a: seq<string>, b: seq<string>, names: set<string>)
    requires Lists(a, names) && Lists(b, names)
    ensures a == b
  {
    AscendingUnique(a, b);
  }

  // One name into its place, unless it is there.
  function Inserted(s: seq<string>, name: string): seq<string>
  {
    if s == [] || Less(name, s[0]) then [name] + s
    else if s[0] == name then s
    else [s[0]] + Inserted(s[1..], name)
  }

  lemma {:induction false} InsertedLists(s: seq<string>, name: string)
    requires Ascending(s)
    ensures Ascending(Inserted(s, name)) && forall x :: x in Inserted(s, name) <==> x in s || x == name
    decreases |s|
  {
    if s != [] {
      LessTotal(name, s[0]);
      if Less(name, s[0]) {
        forall j | 0 < j < |s| ensures Less(name, s[j]) {
          LessTransitive(name, s[0], s[j]);
        }
      } else if name != s[0] {
        TailListsRest(s);
        InsertedLists(s[1..], name);
        var t := Inserted(s[1..], name);
        assert s == [s[0]] + s[1..];
        forall j | 0 <= j < |t| ensures Less(s[0], t[j]) {
          assert t[j] in t;
          if t[j] != name {
            var k :| 0 <= k < |s[1..]| && s[1..][k] == t[j];
            assert s[k + 1] == t[j];
          }
        }
      }
    }
  }

  // A set of names collected in whatever order and sorted.
  method SortedNames(names: set<string>) returns (s: seq<string>)
    ensures s == Listed(names)
  {
    s := [];
    var todo := names;
    while todo != {}
      invariant todo <= names && Lists(s, names - todo)
      decreases |todo|
    {
      var n :| n in todo;
      todo := todo - {n};
      InsertedLists(s, n);
      s := Inserted(s, n);
    }
    assert names - {} == names;
    ListsUnique(s, Listed(names), names);
  }

  lemma {:induction false} ListingExists(names: set<string>)
    ensures exists s :: Lists(s, names)
    decreases |names|
  {
    if names == {} {
      assert Lists([], names);
    } else {
      var n :| n in names;
      ListingExists(names - {n});
      var s :| Lists(s, names - {n});
      InsertedLists(s, n);
      assert Lists(Inserted(s, n), names);
    }
  }

  // The listing itself, as a value of the set.
  ghost function Listed(names: set<string>): (s: seq<string>)
    ensures Lists(s, names)
  {
    ListingExists(names);
    var s :| Lists(s, names);
    s
  }

  predicate NonDescending(s: seq<string>)
  {
    forall i, j :: 0 <= i < j < |s| ==> s[i] == s[j] || Less(s[i], s[j])
  }

  method Place(s: seq<string>, name: string) returns (k: nat)
    requires NonDescending(s)
    ensures k <= |s| && NonDescending(s[..k] + [name] + s[k..])
  {
    k := 0;
    while k < |s| && Less(s[k], name)
      invariant k <= |s| && forall j :: 0 <= j < k ==> Less(s[j], name)
    {
      k := k + 1;
    }
    if k < |s| {
      LessTotal(name, s[k]);
      forall j | k < j < |s| ensures name == s[j] || Less(name, s[j]) {
        if name != s[k] && s[k] != s[j] { LessTransitive(name, s[k], s[j]); }
      }
    }
  }

  // Sorting a list keeps its elements, repeated ones included.
  method Sort(names: seq<string>) returns (r: seq<string>)
    ensures multiset(r) == multiset(names) && NonDescending(r)
  {
    r := [];
    for n := 0 to |names|
      invariant multiset(r) == multiset(names[..n]) && NonDescending(r)
    {
      var k := Place(r, names[n]);
      assert r == r[..k] + r[k..] && names[..n + 1] == names[..n] + [names[n]];
      r := r[..k] + [names[n]] + r[k..];
    }
    assert names[..|names|] == names;
  }

  predicate Distinct(s: seq<string>)
  {
    forall i, j :: 0 <= i < j < |s| ==> s[i] != s[j]
  }

  lemma DistinctCounts(s: seq<string>)
    ensures Distinct(s) <==> forall x :: multiset(s)[x] <= 1
  {
    if Distinct(s) {
      forall x ensures multiset(s)[x] <= 1 {
        DistinctCount(s, x);
      }
    } else {
      var i, j :| 0 <= i < j < |s| && s[i] == s[j];
      assert s == s[..j] + [s[j]] + s[j + 1..];
      assert s[i] in s[..j];
      assert multiset(s)[s[j]] >= 2;
    }
  }

  lemma {:induction false} DistinctCount(s: seq<string>, x: string)
    requires Distinct(s)
    ensures multiset(s)[x] <= 1
    decreases |s|
  {
    if s != [] {
      var k := |s| - 1;
      assert s == s[..k] + [s[k]];
      DistinctCount(s[..k], x);
      if x == s[k] { assert x !in s[..k]; }
    }
  }

  lemma PermutationIsDistinct(a: seq<string>, b: seq<string>)
    requires multiset(a) == multiset(b)
    ensures Distinct(a) <==> Distinct(b)
    ensures forall x :: x in a <==> x in b
  {
    DistinctCounts(a);
    DistinctCounts(b);
    forall x ensures x in a <==> x in b {
      assert x in a <==> x in multiset(a);
    }
  }
}
