/** The code-point order on strings that Python's tuple comparison and `COLLATE "C"` share. */
module Ordering {
  predicate Less(a: string, b: string) {
    if b == "" then false
    else if a == "" then true
    else a[0] < b[0] || (a[0] == b[0] && Less(a[1..], b[1..]))
  }

  /** The strings agree up to `k`, where the first ends or has the smaller character. */
  predicate SmallerAt(a: string, b: string, k: nat) {
    k <= |a| && k < |b| && a[..k] == b[..k] && (k == |a| || a[k] < b[k])
  }

  lemma {:induction false} SameFirst(a: string, b: string, k: nat)
    requires SmallerAt(a, b, k)
    ensures k == 0 || (a != "" && b != "" && a[0] == b[0])
  {
    if k > 0 {
      assert a[..k][0] == b[..k][0];
    }
  }

  /** The first difference decides, and a prefix comes first. */
  lemma {:induction false} LessExactly(a: string, b: string)
    ensures Less(a, b) <==> exists k: nat :: SmallerAt(a, b, k)
  {
    if b != "" && a != "" && a[0] == b[0] {
      LessExactly(a[1..], b[1..]);
      if k: nat :| SmallerAt(a[1..], b[1..], k) {
        assert a[..k + 1] == [a[0]] + a[1..][..k] && b[..k + 1] == [b[0]] + b[1..][..k];
        assert SmallerAt(a, b, k + 1);
      }
      if k: nat :| SmallerAt(a, b, k) {
        assert k > 0 && a[1..][..k - 1] == a[..k][1..] && b[1..][..k - 1] == b[..k][1..];
        assert SmallerAt(a[1..], b[1..], k - 1);
      }
    } else if b != "" {
      assert SmallerAt(a, b, 0) <==> a == "" || a[0] < b[0];
      forall k: nat | SmallerAt(a, b, k)
        ensures k == 0
      {
        SameFirst(a, b, k);
      }
    }
  }

  lemma {:induction false} Trichotomy(a: string, b: string)
    ensures Less(a, b) || a == b || Less(b, a)
  {
    if a != "" && b != "" && a[0] == b[0] {
      Trichotomy(a[1..], b[1..]);
      assert a == [a[0]] + a[1..] && b == [b[0]] + b[1..];
    }
  }

  lemma {:induction false} Irreflexive(a: string)
    ensures !Less(a, a)
  {
    if a != "" { Irreflexive(a[1..]); }
  }

  lemma {:induction false} Transitive(a: string, b: string, c: string)
    requires Less(a, b) && Less(b, c)
    ensures Less(a, c)
  {
    if a != "" && a[0] == b[0] == c[0] { Transitive(a[1..], b[1..], c[1..]); }
  }

  ghost predicate Ascending(names: seq<string>) {
    forall i, j :: 0 <= i < j < |names| ==> Less(names[i], names[j])
  }

  ghost predicate Distinct(names: seq<string>) {
    forall i, j :: 0 <= i < j < |names| ==> names[i] != names[j]
  }

  function InsertOrdered(name: string, names: seq<string>): seq<string> {
    if names == [] || !Less(names[0], name) then [name] + names
    else [names[0]] + InsertOrdered(name, names[1..])
  }

  /** The list in order, equal names kept. */
  function Sorted(names: seq<string>): seq<string> {
    if names == [] then [] else InsertOrdered(names[0], Sorted(names[1..]))
  }

  lemma {:induction false} InsertKeepsNames(name: string, names: seq<string>)
    ensures multiset(InsertOrdered(name, names)) == multiset(names) + multiset{name}
  {
    if names != [] && Less(names[0], name) {
      InsertKeepsNames(name, names[1..]);
      assert names == [names[0]] + names[1..];
    }
  }

  lemma {:induction false} SortedKeepsNames(names: seq<string>)
    ensures multiset(Sorted(names)) == multiset(names)
  {
    if names != [] {
      SortedKeepsNames(names[1..]);
      InsertKeepsNames(names[0], Sorted(names[1..]));
      assert names == [names[0]] + names[1..];
    }
  }

  lemma {:induction false} SameMembers(a: seq<string>, b: seq<string>)
    requires multiset(a) == multiset(b)
    ensures |a| == |b| && forall x :: x in a <==> x in b
  {
    assert |a| == |multiset(a)| && |b| == |multiset(b)|;
    forall x ensures x in a <==> x in b {
      assert x in a <==> x in multiset(a);
      assert x in b <==> x in multiset(b);
    }
  }

  lemma {:induction false} AscendingCons(name: string, names: seq<string>)
    requires Ascending(names) && forall x :: x in names ==> Less(name, x)
    ensures Ascending([name] + names)
  {
  }

  lemma {:induction false} FirstIsLeast(names: seq<string>, name: string)
    requires Ascending(names) && names != []
    ensures forall x :: x in names[1..] ==> Less(names[0], x)
    ensures Less(name, names[0]) ==> forall x :: x in names ==> Less(name, x)
  {
    forall j | 0 < j < |names| ensures Less(names[0], names[j]) && (Less(name, names[0]) ==> Less(name, names[j])) {
      if Less(name, names[0]) { Transitive(name, names[0], names[j]); }
    }
  }

  lemma {:induction false} InsertKeepsAscending(name: string, names: seq<string>)
    requires Ascending(names) && name !in names
    ensures Ascending(InsertOrdered(name, names))
  {
    if names == [] {
      AscendingCons(name, []);
    } else {
      Trichotomy(name, names[0]);
      FirstIsLeast(names, name);
      if Less(names[0], name) {
        InsertKeepsAscending(name, names[1..]);
        InsertKeepsNames(name, names[1..]);
        SameMembers(InsertOrdered(name, names[1..]), [name] + names[1..]);
        AscendingCons(names[0], InsertOrdered(name, names[1..]));
      } else {
        AscendingCons(name, names);
      }
    }
  }

  /** Without repetition the sorted list rises. */
  lemma {:induction false} SortedAscends(names: seq<string>)
    requires Distinct(names)
    ensures Ascending(Sorted(names))
  {
    if names != [] {
      SortedAscends(names[1..]);
      SortedKeepsNames(names[1..]);
      SameMembers(Sorted(names[1..]), names[1..]);
      InsertKeepsAscending(names[0], Sorted(names[1..]));
    }
  }

  lemma {:induction false} DistinctCons(names: seq<string>)
    requires names != []
    ensures Distinct(names) <==> Distinct(names[1..]) && names[0] !in names[1..]
  {
    var rest := names[1..];
    if Distinct(names) {
      forall i, j | 0 <= i < j < |rest| ensures rest[i] != rest[j] {
        assert names[i + 1] != names[j + 1];
      }
      forall k | 0 <= k < |rest| ensures rest[k] != names[0] {
        assert names[0] != names[k + 1];
      }
    }
    if Distinct(rest) && names[0] !in rest {
      forall i, j | 0 <= i < j < |names| ensures names[i] != names[j] {
        if i == 0 { assert names[j] == rest[j - 1]; } else { assert rest[i - 1] != rest[j - 1]; }
      }
    }
  }

  function Members(names: seq<string>): set<string> { set x | x in names }

  lemma {:induction false} MembersCons(names: seq<string>)
    requires names != []
    ensures Members(names) == Members(names[1..]) + {names[0]}
    ensures |Members(names)| == |Members(names[1..])| + if names[0] in names[1..] then 0 else 1
  {
    assert names == [names[0]] + names[1..];
    assert Members(names) == Members(names[1..]) + {names[0]};
    if names[0] in names[1..] {
      assert Members(names) == Members(names[1..]);
    }
  }

  /** A list has no repetition exactly when its set has as many members. */
  lemma {:induction false} DistinctByCount(names: seq<string>)
    ensures |Members(names)| <= |names|
    ensures |Members(names)| == |names| <==> Distinct(names)
  {
    if names != [] {
      DistinctByCount(names[1..]);
      MembersCons(names);
      DistinctCons(names);
    }
  }

  lemma {:induction false} DistinctSorted(names: seq<string>)
    ensures Distinct(Sorted(names)) <==> Distinct(names)
  {
    SortedKeepsNames(names);
    SameMembers(Sorted(names), names);
    DistinctByCount(names);
    DistinctByCount(Sorted(names));
    assert Members(names) == Members(Sorted(names));
  }
}
