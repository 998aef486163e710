/** The merged alias list of a catalog entry: the sorted union of two lists without the canonical name. */
module Aliases {
  import opened Ordering

  /** Inserts a name unless it is there already. */
  function Insert(name: string, names: seq<string>): seq<string> {
    if names == [] then [name]
    else if names[0] == name then names
    else if Less(name, names[0]) then [name] + names
    else [names[0]] + Insert(name, names[1..])
  }

  lemma {:induction false} InsertKeepsOrder(name: string, names: seq<string>)
    requires Ascending(names)
    ensures Ascending(Insert(name, names))
    ensures forall x :: x in Insert(name, names) <==> x in names || x == name
  {
    if names != [] && names[0] != name {
      Trichotomy(name, names[0]);
      if Less(name, names[0]) {
        forall j | 0 <= j < |names|
          ensures Less(name, names[j])
        {
          if j > 0 {
            Transitive(name, names[0], names[j]);
          }
        }
      } else {
        var rest := Insert(name, names[1..]);
        InsertKeepsOrder(name, names[1..]);
        assert names == [names[0]] + names[1..];
        forall j | 0 <= j < |rest|
          ensures Less(names[0], rest[j])
        {
          assert rest[j] in rest;
          if rest[j] != name {
            var k :| 0 <= k < |names[1..]| && names[1..][k] == rest[j];
          }
        }
      }
    }
  }

  function InsertAll(names: seq<string>, added: seq<string>, canonical: string): seq<string> {
    if added == [] then names
    else
      var front, last := added[..|added| - 1], added[|added| - 1];
      var before := InsertAll(names, front, canonical);
      if last == canonical then before else Insert(last, before)
  }

  /** The stored and the source names, minus the canonical one, in code-point order. */
  function Merge(existing: seq<string>, localized: seq<string>, canonical: string): seq<string> {
    InsertAll(InsertAll([], existing, canonical), localized, canonical)
  }

  lemma {:induction false} InsertAllHolds(names: seq<string>, added: seq<string>, canonical: string)
    requires Ascending(names)
    ensures Ascending(InsertAll(names, added, canonical))
    ensures forall x :: x in InsertAll(names, added, canonical) <==> x in names || (x in added && x != canonical)
  {
    if added != [] {
      var front, last := added[..|added| - 1], added[|added| - 1];
      InsertAllHolds(names, front, canonical);
      assert added == front + [last];
      if last != canonical {
        InsertKeepsOrder(last, InsertAll(names, front, canonical));
      }
    }
  }

  /** Exactly the union without the canonical name, each name once. */
  lemma {:induction false} MergeIsTheUnion(existing: seq<string>, localized: seq<string>, canonical: string)
    ensures Ascending(Merge(existing, localized, canonical))
    ensures forall x :: x in Merge(existing, localized, canonical) <==>
                        (x in existing || x in localized) && x != canonical
  {
    InsertAllHolds([], existing, canonical);
    InsertAllHolds(InsertAll([], existing, canonical), localized, canonical);
  }

  lemma {:induction false} FirstIsLeast(a: seq<string>, b: seq<string>)
    requires Ascending(a) && Ascending(b) && a != [] && b != []
    requires a[0] in b && b[0] in a
    ensures a[0] == b[0]
  {
    var i :| 0 <= i < |b| && b[i] == a[0];
    var j :| 0 <= j < |a| && a[j] == b[0];
    if i > 0 && j > 0 {
      Transitive(a[0], a[j], a[0]);
      Irreflexive(a[0]);
    }
  }

  /** An ascending list is determined by its members. */
  lemma {:induction false} AscendingIsUnique(a: seq<string>, b: seq<string>)
    requires Ascending(a) && Ascending(b)
    requires forall x :: x in a <==> x in b
    ensures a == b
  {
    SameEmptiness(a, b);
    SameEmptiness(b, a);
    if a != [] {
      assert a[0] in b && b[0] in a;
      FirstIsLeast(a, b);
      forall x ensures x in a[1..] <==> x in b[1..] {
        NotRepeated(a);
        NotRepeated(b);
        assert x in a <==> x == a[0] || x in a[1..];
        assert x in b <==> x == b[0] || x in b[1..];
      }
      AscendingIsUnique(a[1..], b[1..]);
    }
  }

  lemma {:induction false} SameEmptiness(a: seq<string>, b: seq<string>)
    requires forall x :: x in a ==> x in b
    ensures a != [] ==> b != []
  {
    if a != [] {
      assert a[0] in a;
      assert a[0] in b;
      var k :| 0 <= k < |b| && b[k] == a[0];
    }
  }

  lemma {:induction false} NotRepeated(a: seq<string>)
    requires Ascending(a) && a != []
    ensures a[0] !in a[1..]
  {
    Irreflexive(a[0]);
  }

  /** Merging names that are all there already changes nothing. */
  lemma {:induction false} MergeAgain(names: seq<string>, localized: seq<string>, canonical: string)
    requires Ascending(names) && canonical !in names
    requires forall x :: x in localized && x != canonical ==> x in names
    ensures Merge(names, localized, canonical) == names
  {
    MergeIsTheUnion(names, localized, canonical);
    AscendingIsUnique(Merge(names, localized, canonical), names);
  }
}
