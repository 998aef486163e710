/**
 The upsert of one kind of one discipline from its source: rows are matched by slug, then by name; new
 rows are created whole, existing ones get the source's image and aliases and a missing parent.

 The table holds the entities of that discipline and kind. Attributes are one opaque value; what the
 source answers for an image is a function of the slug and the image's address, and the id the database
 gives a created entity is a function of its slug.
 */
module CatalogSync {
  import opened Wrappers
  import Aliases
  import Ordering

  datatype Entity = Entity(slug: string, name: string, attrs: int, image: Option<string>, aliases: seq<string>,
                           parent: Option<int>)

  datatype SourceRow = SourceRow(slug: string, name: string, imageUrl: string, attrs: int, aliases: seq<string>,
                                 parentSlug: Option<string>)

  type Table = map<int, Entity>

  /** `Missing` is the source's 404; `Broken` is every other failure, including a refused upload. */
  datatype Download = Image(key: string) | Missing | Broken

  datatype Source = Source(bucket: string, download: (string, string) -> Download, valid: int -> bool,
                           modes: map<string, int>)

  // ---- matching ----

  /** The unique constraints of the table. */
  ghost predicate Unique(t: Table) {
    forall a, b :: a in t && b in t && (t[a].slug == t[b].slug || t[a].name == t[b].name) ==> a == b
  }

  ghost function BySlug(t: Table, slug: string): Option<int> {
    if exists i :: i in t && t[i].slug == slug then
      var i :| i in t && t[i].slug == slug;
      Some(i)
    else None
  }

  ghost function ByName(t: Table, name: string): Option<int> {
    if exists i :: i in t && t[i].name == name then
      var i :| i in t && t[i].name == name;
      Some(i)
    else None
  }

  /** The entity that the first of the slug's rows with a known name is matched to. */
  ghost function NameMatch(t: Table, rows: seq<SourceRow>, slug: string): Option<int> {
    if rows == [] then None
    else
      var front, last := rows[..|rows| - 1], rows[|rows| - 1];
      var before := NameMatch(t, front, slug);
      if before.Some? then before else if last.slug == slug then ByName(t, last.name) else None
  }

  ghost function Matched(t: Table, rows: seq<SourceRow>, slug: string): Option<int> {
    if BySlug(t, slug).Some? then BySlug(t, slug) else NameMatch(t, rows, slug)
  }

  /** The entity that a slug's rows write to: the matched one, or the one created for the slug. */
  ghost function Target(t: Table, rows: seq<SourceRow>, newId: string -> int, slug: string): int {
    if Matched(t, rows, slug).Some? then Matched(t, rows, slug).value else newId(slug)
  }

  ghost predicate FreshIds(t: Table, newId: string -> int) {
    && (forall s :: newId(s) !in t)
    && (forall a, b :: newId(a) == newId(b) ==> a == b)
  }

  lemma {:induction false} BySlugIs(t: Table, i: int)
    requires Unique(t) && i in t
    ensures BySlug(t, t[i].slug) == Some(i) && ByName(t, t[i].name) == Some(i)
  {
  }

  lemma {:induction false} NameMatchIn(t: Table, rows: seq<SourceRow>, slug: string)
    ensures NameMatch(t, rows, slug).Some? ==> NameMatch(t, rows, slug).value in t
  {
    if rows != [] {
      NameMatchIn(t, rows[..|rows| - 1], slug);
    }
  }

  lemma {:induction false} MatchedIn(t: Table, rows: seq<SourceRow>, slug: string)
    ensures Matched(t, rows, slug).Some? ==> Matched(t, rows, slug).value in t
  {
    NameMatchIn(t, rows, slug);
  }

  // ---- images ----

  function PublicUrl(bucket: string, key: string): string {
    bucket + "/" + key
  }

  predicate Mirrored(bucket: string, image: Option<string>) {
    image.Some? && PublicUrl(bucket, "") <= image.value
  }

  /** The image address of the slug's last row. */
  function ImageUrl(rows: seq<SourceRow>, slug: string): string {
    if rows == [] then ""
    else if rows[|rows| - 1].slug == slug then rows[|rows| - 1].imageUrl
    else ImageUrl(rows[..|rows| - 1], slug)
  }

  /** One image: kept if it is on the bucket, else downloaded; a missing one leaves the row without. */
  function Resolve(src: Source, current: Option<string>, slug: string, url: string): Result<Option<string>> {
    if Mirrored(src.bucket, current) then Success(current)
    else
      match src.download(slug, url)
      case Image(key) => Success(Some(PublicUrl(src.bucket, key)))
      case Missing => Success(None)
      case Broken => Failure("the image could not be mirrored")
  }

  ghost function CurrentImage(t: Table, rows: seq<SourceRow>, slug: string): Option<string> {
    MatchedIn(t, rows, slug);
    if Matched(t, rows, slug).Some? then t[Matched(t, rows, slug).value].image else None
  }

  ghost function ResolvedImage(src: Source, t: Table, rows: seq<SourceRow>, slug: string): Result<Option<string>> {
    Resolve(src, CurrentImage(t, rows, slug), slug, ImageUrl(rows, slug))
  }

  ghost function NewImage(src: Source, t: Table, rows: seq<SourceRow>, slug: string): Option<string> {
    if ResolvedImage(src, t, rows, slug).Success? then ResolvedImage(src, t, rows, slug).value else None
  }

  ghost predicate ImagesOk(src: Source, t: Table, rows: seq<SourceRow>) {
    forall i :: 0 <= i < |rows| ==> ResolvedImage(src, t, rows, rows[i].slug).Success?
  }

  // ---- the writes ----

  function Created(row: SourceRow): Entity {
    Entity(row.slug, row.name, row.attrs, None, [], None)
  }

  predicate NeedsParent(e: Entity, row: SourceRow) {
    row.parentSlug.Some? && e.parent.None?
  }

  /** An empty parent slug is never looked up. */
  predicate ParentKnown(src: Source, row: SourceRow) {
    row.parentSlug.Some? && row.parentSlug.value != "" && row.parentSlug.value in src.modes
  }

  function Updated(src: Source, e: Entity, row: SourceRow, image: Option<string>): Entity {
    e.(image := image, aliases := Aliases.Merge(e.aliases, row.aliases, e.name),
       parent := if NeedsParent(e, row) && ParentKnown(src, row) then Some(src.modes[row.parentSlug.value])
         else e.parent)
  }

  /** The entity a row writes to, as it is before the row. */
  function Current(before: Table, row: SourceRow, id: int): Entity {
    if id in before then before[id] else Created(row)
  }

  function NextTable(src: Source, before: Table, row: SourceRow, id: int, image: Option<string>): Table {
    before[id := Updated(src, Current(before, row, id), row, image)]
  }

  predicate ParentFound(src: Source, before: Table, row: SourceRow, id: int) {
    NeedsParent(Current(before, row, id), row) ==> ParentKnown(src, row)
  }

  /** The table after the first `k` rows. */
  ghost function Upserted(src: Source, t: Table, rows: seq<SourceRow>, newId: string -> int, k: nat): Table
    requires k <= |rows|
  {
    if k == 0 then t
    else
      var before := Upserted(src, t, rows, newId, k - 1);
      var row := rows[k - 1];
      var id := Target(t, rows, newId, row.slug);
      NextTable(src, before, row, id, NewImage(src, t, rows, row.slug))
  }

  /** No row needs a parent that the source's modes do not hold. */
  ghost predicate ParentsFound(src: Source, t: Table, rows: seq<SourceRow>, newId: string -> int) {
    forall k :: 0 <= k < |rows| ==> ParentFoundAt(src, t, rows, newId, k)
  }

  ghost predicate ParentFoundAt(src: Source, t: Table, rows: seq<SourceRow>, newId: string -> int, k: nat)
    requires k < |rows|
  {
    ParentFound(src, Upserted(src, t, rows, newId, k), rows[k], Target(t, rows, newId, rows[k].slug))
  }

  ghost function Synced(src: Source, t: Table, rows: seq<SourceRow>, newId: string -> int): Table {
    Upserted(src, t, rows, newId, |rows|)
  }

  /** The sync goes through; every other case raises before the commit. */
  ghost predicate Accepted(src: Source, t: Table, rows: seq<SourceRow>, newId: string -> int) {
    && (forall i :: 0 <= i < |rows| ==> src.valid(rows[i].attrs))
    && ImagesOk(src, t, rows)
    && ParentsFound(src, t, rows, newId)
    && Unique(Synced(src, t, rows, newId))
  }

  // ---- what is kept ----

  /** What a sync never takes from an entity. */
  ghost predicate Kept(src: Source, before: Entity, after: Entity) {
    && after.slug == before.slug && after.name == before.name && after.attrs == before.attrs
    && (before.parent.Some? ==> after.parent == before.parent)
    && (Mirrored(src.bucket, before.image) ==> after.image == before.image)
    && (forall x :: x in before.aliases && x != before.name ==> x in after.aliases)
  }

  /** Some row before `k` writes to the entity. */
  ghost predicate Touched(t: Table, rows: seq<SourceRow>, newId: string -> int, id: int, k: nat)
    requires k <= |rows|
  {
    exists i :: 0 <= i < k && Target(t, rows, newId, rows[i].slug) == id
  }

  lemma {:induction false} UpdateKeeps(src: Source, e: Entity, row: SourceRow, image: Option<string>)
    ensures var u := Updated(src, e, row, image);
            && u.slug == e.slug && u.name == e.name && u.attrs == e.attrs
            && (e.parent.Some? ==> u.parent == e.parent)
            && (forall x :: x in e.aliases && x != e.name ==> x in u.aliases)
            && (forall x :: x in row.aliases && x != e.name ==> x in u.aliases)
            && Ordering.Ascending(u.aliases) && e.name !in u.aliases
  {
    Aliases.MergeIsTheUnion(e.aliases, row.aliases, e.name);
  }

  lemma {:induction false} EntityKept(src: Source, t: Table, rows: seq<SourceRow>, newId: string -> int, k: nat,
                                      id: int)
    requires k <= |rows| && id in t && FreshIds(t, newId) && ImagesOk(src, t, rows)
    ensures id in Upserted(src, t, rows, newId, k)
    ensures Kept(src, t[id], Upserted(src, t, rows, newId, k)[id])
    ensures !Touched(t, rows, newId, id, k) ==> Upserted(src, t, rows, newId, k)[id] == t[id]
  {
    if k > 0 {
      EntityKept(src, t, rows, newId, k - 1, id);
      var before, row := Upserted(src, t, rows, newId, k - 1), rows[k - 1];
      if Target(t, rows, newId, row.slug) == id {
        assert Matched(t, rows, row.slug) == Some(id);
        assert ResolvedImage(src, t, rows, row.slug).Success?;
        UpdateKeeps(src, before[id], row, NewImage(src, t, rows, row.slug));
        assert Touched(t, rows, newId, id, k);
      } else if Touched(t, rows, newId, id, k - 1) {
        assert Touched(t, rows, newId, id, k);
      }
    }
  }

  /**
   A sync keeps every row's slug, name and attributes, an existing parent, an image on the bucket and
   every alias but the canonical name; it deletes nothing, and leaves rows that no source row matches
   exactly as they are.
   */
  lemma {:induction false} SyncIsConservative(src: Source, t: Table, rows: seq<SourceRow>, newId: string -> int,
                                              id: int)
    requires FreshIds(t, newId) && Accepted(src, t, rows, newId) && id in t
    ensures var t' := Synced(src, t, rows, newId);
            && id in t' && Kept(src, t[id], t'[id])
            && ((forall i :: 0 <= i < |rows| ==> Matched(t, rows, rows[i].slug) != Some(id)) ==> t'[id] == t[id])
  {
    EntityKept(src, t, rows, newId, |rows|, id);
  }

  /** The first row of a slug. */
  ghost predicate FirstOf(rows: seq<SourceRow>, i: int) {
    0 <= i < |rows| && forall j :: 0 <= j < i ==> rows[j].slug != rows[i].slug
  }

  /** A created entity comes from the first row of a slug that matches nothing. */
  ghost predicate CreatedFrom(t: Table, rows: seq<SourceRow>, newId: string -> int, e: Entity, id: int, i: int) {
    && FirstOf(rows, i) && Matched(t, rows, rows[i].slug).None? && id == newId(rows[i].slug)
    && e.slug == rows[i].slug && e.name == rows[i].name && e.attrs == rows[i].attrs
  }

  lemma {:induction false} EntityCreated(src: Source, t: Table, rows: seq<SourceRow>, newId: string -> int, k: nat,
                                         id: int)
    returns (i: int)
    requires k <= |rows| && FreshIds(t, newId) && id !in t && id in Upserted(src, t, rows, newId, k)
    ensures i < k && CreatedFrom(t, rows, newId, Upserted(src, t, rows, newId, k)[id], id, i)
  {
    var before, row := Upserted(src, t, rows, newId, k - 1), rows[k - 1];
    MatchedIn(t, rows, row.slug);
    if id in before {
      i := EntityCreated(src, t, rows, newId, k - 1, id);
      UpdateKeeps(src, before[id], row, NewImage(src, t, rows, row.slug));
    } else {
      i := k - 1;
      UpdateKeeps(src, Created(row), row, NewImage(src, t, rows, row.slug));
      forall j | 0 <= j < i
        ensures rows[j].slug != row.slug
      {
        TargetPresent(src, t, rows, newId, k - 1, j);
      }
    }
  }

  /** What a row has brought about once it is processed. */
  ghost predicate Settled(e: Entity, row: SourceRow) {
    && Ordering.Ascending(e.aliases) && e.name !in e.aliases
    && (forall x :: x in row.aliases && x != e.name ==> x in e.aliases)
    && (row.parentSlug.Some? ==> e.parent.Some?)
  }

  lemma {:induction false} TargetPresent(src: Source, t: Table, rows: seq<SourceRow>, newId: string -> int, k: nat,
                                         i: nat)
    requires i < k <= |rows|
    ensures Target(t, rows, newId, rows[i].slug) in Upserted(src, t, rows, newId, k)
  {
    if i < k - 1 {
      TargetPresent(src, t, rows, newId, k - 1, i);
    }
  }

  lemma {:induction false} UpdateSettles(src: Source, e: Entity, row: SourceRow, image: Option<string>)
    requires NeedsParent(e, row) ==> ParentKnown(src, row)
    ensures Settled(Updated(src, e, row, image), row)
  {
    UpdateKeeps(src, e, row, image);
  }

  lemma {:induction false} UpdateKeepsSettled(src: Source, e: Entity, row: SourceRow, image: Option<string>,
                                              settled: SourceRow)
    requires Settled(e, settled)
    ensures Settled(Updated(src, e, row, image), settled)
  {
    UpdateKeeps(src, e, row, image);
  }

  lemma {:induction false} SettledNext(src: Source, before: Table, row: SourceRow, id: int, image: Option<string>,
                                       settled: SourceRow, other: int)
    requires other in before && Settled(before[other], settled)
    ensures var t := NextTable(src, before, row, id, image);
            other in t && Settled(t[other], settled)
  {
    if other == id {
      UpdateKeepsSettled(src, before[id], row, image, settled);
    }
  }

  lemma {:induction false} SettlesNow(src: Source, before: Table, row: SourceRow, id: int, image: Option<string>)
    requires ParentFound(src, before, row, id)
    ensures var t := NextTable(src, before, row, id, image);
            id in t && Settled(t[id], row)
  {
    UpdateSettles(src, Current(before, row, id), row, image);
  }

  lemma {:induction false} RowSettled(src: Source, t: Table, rows: seq<SourceRow>, newId: string -> int, k: nat, i: nat)
    requires i < k <= |rows| && ParentsFound(src, t, rows, newId)
    ensures Target(t, rows, newId, rows[i].slug) in Upserted(src, t, rows, newId, k)
    ensures Settled(Upserted(src, t, rows, newId, k)[Target(t, rows, newId, rows[i].slug)], rows[i])
  {
    var before, row := Upserted(src, t, rows, newId, k - 1), rows[k - 1];
    var id, image := Target(t, rows, newId, row.slug), NewImage(src, t, rows, row.slug);
    if i < k - 1 {
      RowSettled(src, t, rows, newId, k - 1, i);
      SettledNext(src, before, row, id, image, rows[i], Target(t, rows, newId, rows[i].slug));
    } else {
      assert ParentFoundAt(src, t, rows, newId, k - 1);
      SettlesNow(src, before, row, id, image);
    }
  }

  // ---- images over a sync ----

  /** The last row before `k` that writes to the entity, or -1. */
  ghost function LastRow(t: Table, rows: seq<SourceRow>, newId: string -> int, id: int, k: nat): (j: int)
    requires k <= |rows|
    ensures -1 <= j < k
    ensures j >= 0 ==> Target(t, rows, newId, rows[j].slug) == id
  {
    if k == 0 then -1
    else if Target(t, rows, newId, rows[k - 1].slug) == id then k - 1
    else LastRow(t, rows, newId, id, k - 1)
  }

  lemma {:induction false} LastRowDecidesImage(src: Source, t: Table, rows: seq<SourceRow>, newId: string -> int,
                                               k: nat, id: int)
    requires k <= |rows| && id in Upserted(src, t, rows, newId, k)
    ensures var j := LastRow(t, rows, newId, id, k);
            var image := Upserted(src, t, rows, newId, k)[id].image;
            if j >= 0 then image == NewImage(src, t, rows, rows[j].slug) else id in t && image == t[id].image
  {
    if k > 0 && Target(t, rows, newId, rows[k - 1].slug) != id {
      LastRowDecidesImage(src, t, rows, newId, k - 1, id);
    }
  }

  lemma {:induction false} OnBucket(bucket: string, key: string)
    ensures Mirrored(bucket, Some(PublicUrl(bucket, key)))
  {
    assert PublicUrl(bucket, "") <= PublicUrl(bucket, key);
  }

  /** An image that is resolved to something off the bucket is a missing one. */
  lemma {:induction false} ResolvedOrMissing(src: Source, current: Option<string>, slug: string, url: string)
    requires Resolve(src, current, slug, url).Success?
    ensures var image := Resolve(src, current, slug, url).value;
            Mirrored(src.bucket, image) || (image == None && src.download(slug, url) == Missing)
  {
    if src.download(slug, url).Image? {
      OnBucket(src.bucket, src.download(slug, url).key);
    }
  }

  // ---- the second run ----

  /** The created entities' names, as the second run finds them. */
  ghost predicate NameIsCreated(t: Table, rows: seq<SourceRow>, name: string) {
    exists i :: FirstOf(rows, i) && Matched(t, rows, rows[i].slug).None? && rows[i].name == name
  }

  /**
   A slug's rows are crossed when a row with an unknown name comes before the row whose name matched,
   and another slug's row creates an entity under that unknown name.
   */
  ghost predicate CrossedAt(t: Table, rows: seq<SourceRow>, i: int) {
    && 0 <= i < |rows|
    && BySlug(t, rows[i].slug).None? && NameMatch(t, rows, rows[i].slug).Some?
    && NameMatch(t, rows[..i + 1], rows[i].slug).None?
    && NameIsCreated(t, rows, rows[i].name)
  }

  ghost predicate Crossed(t: Table, rows: seq<SourceRow>) {
    exists i :: CrossedAt(t, rows, i)
  }

  /** A name is known after the sync where it was before, and where an entity was created under it. */
  lemma {:induction false} NamesAfter(src: Source, t: Table, rows: seq<SourceRow>, newId: string -> int, name: string)
    requires Unique(t) && FreshIds(t, newId) && Accepted(src, t, rows, newId)
    ensures var t' := Synced(src, t, rows, newId);
            && (ByName(t, name).Some? ==> ByName(t', name) == ByName(t, name))
            && (ByName(t, name).None? ==> (ByName(t', name).Some? <==> NameIsCreated(t, rows, name)))
            && (ByName(t, name).None? && ByName(t', name).Some? ==> ByName(t', name).value !in t)
  {
    var t' := Synced(src, t, rows, newId);
    if ByName(t, name).Some? {
      var id := ByName(t, name).value;
      EntityKept(src, t, rows, newId, |rows|, id);
      BySlugIs(t', id);
    } else {
      if ByName(t', name).Some? {
        var id := ByName(t', name).value;
        if id in t {
          EntityKept(src, t, rows, newId, |rows|, id);
        } else {
          var i := EntityCreated(src, t, rows, newId, |rows|, id);
        }
      }
      if i :| FirstOf(rows, i) && Matched(t, rows, rows[i].slug).None? && rows[i].name == name {
        CreatedIsThere(src, t, rows, newId, i);
        BySlugIs(t', newId(rows[i].slug));
      }
    }
  }

  lemma {:induction false} CreatedIsThere(src: Source, t: Table, rows: seq<SourceRow>, newId: string -> int, i: int)
    requires FreshIds(t, newId) && FirstOf(rows, i) && Matched(t, rows, rows[i].slug).None?
    ensures var id := newId(rows[i].slug);
            id in Synced(src, t, rows, newId) && CreatedFrom(t, rows, newId, Synced(src, t, rows, newId)[id], id, i)
  {
    var id := newId(rows[i].slug);
    TargetPresent(src, t, rows, newId, |rows|, i);
    var j := EntityCreated(src, t, rows, newId, |rows|, id);
    assert rows[j].slug == rows[i].slug;
  }

  lemma {:induction false} SlugsAfter(src: Source, t: Table, rows: seq<SourceRow>, newId: string -> int, i: int)
    requires Unique(t) && FreshIds(t, newId) && Accepted(src, t, rows, newId) && 0 <= i < |rows|
    ensures var t', slug := Synced(src, t, rows, newId), rows[i].slug;
            && (BySlug(t, slug).Some? ==> BySlug(t', slug) == BySlug(t, slug))
            && (Matched(t, rows, slug).None? ==> BySlug(t', slug) == Some(newId(slug)))
            && (BySlug(t, slug).None? && Matched(t, rows, slug).Some? ==> BySlug(t', slug).None?)
  {
    var t', slug := Synced(src, t, rows, newId), rows[i].slug;
    if BySlug(t, slug).Some? {
      EntityKept(src, t, rows, newId, |rows|, BySlug(t, slug).value);
      BySlugIs(t', BySlug(t, slug).value);
    } else if Matched(t, rows, slug).None? {
      var j := FirstRow(rows, i);
      CreatedIsThere(src, t, rows, newId, j);
      BySlugIs(t', newId(slug));
    } else if BySlug(t', slug).Some? {
      var id := BySlug(t', slug).value;
      if id in t {
        EntityKept(src, t, rows, newId, |rows|, id);
      } else {
        var j := EntityCreated(src, t, rows, newId, |rows|, id);
      }
    }
  }

  lemma {:induction false} FirstRow(rows: seq<SourceRow>, i: nat) returns (j: int)
    requires i < |rows|
    ensures FirstOf(rows, j) && rows[j].slug == rows[i].slug
  {
    if k :| 0 <= k < i && rows[k].slug == rows[i].slug {
      j := FirstRow(rows, k);
    } else {
      j := i;
    }
  }

  /** Some row of the slug before `k` has the property. */
  ghost predicate SomeBefore(property: int -> bool, rows: seq<SourceRow>, slug: string, k: nat)
    requires k <= |rows|
  {
    k > 0 && ((rows[k - 1].slug == slug && property(k - 1)) || SomeBefore(property, rows, slug, k - 1))
  }

  lemma {:induction false} FoundBefore(property: int -> bool, rows: seq<SourceRow>, i: nat, k: nat)
    requires i < k <= |rows| && property(i)
    ensures SomeBefore(property, rows, rows[i].slug, k)
    decreases k
  {
    if i < k - 1 {
      FoundBefore(property, rows, i, k - 1);
    }
  }

  lemma {:induction false} FindBefore(property: int -> bool, rows: seq<SourceRow>, slug: string, k: nat)
    returns (i: nat)
    requires k <= |rows| && SomeBefore(property, rows, slug, k)
    ensures i < k && property(i)
    decreases k
  {
    if rows[k - 1].slug == slug && property(k - 1) {
      i := k - 1;
    } else {
      i := FindBefore(property, rows, slug, k - 1);
    }
  }

  ghost predicate CrossedBefore(t: Table, rows: seq<SourceRow>, slug: string, k: nat)
    requires k <= |rows|
  {
    SomeBefore(i => CrossedAt(t, rows, i), rows, slug, k)
  }

  lemma {:induction false} NameMatchStep(t: Table, rows: seq<SourceRow>, slug: string, k: nat)
    requires 0 < k <= |rows|
    ensures NameMatch(t, rows[..k], slug) ==
            if NameMatch(t, rows[..k - 1], slug).Some? then NameMatch(t, rows[..k - 1], slug)
            else if rows[k - 1].slug == slug then ByName(t, rows[k - 1].name) else None
  {
    assert rows[..k][..k - 1] == rows[..k - 1];
  }

  /**
   Up to the first crossed row a slug finds by name what it found before the sync; from there on it
   finds a created entity.
   */
  lemma {:induction false} NameMatchAfter(src: Source, t: Table, rows: seq<SourceRow>, newId: string -> int,
                                          slug: string, k: nat)
    requires Unique(t) && FreshIds(t, newId) && Accepted(src, t, rows, newId) && k <= |rows|
    requires BySlug(t, slug).None? && NameMatch(t, rows, slug).Some?
    ensures var t' := Synced(src, t, rows, newId);
            if CrossedBefore(t, rows, slug, k)
            then NameMatch(t', rows[..k], slug).Some? && NameMatch(t', rows[..k], slug).value !in t
            else NameMatch(t', rows[..k], slug) == NameMatch(t, rows[..k], slug)
  {
    var t' := Synced(src, t, rows, newId);
    if k > 0 {
      NameMatchAfter(src, t, rows, newId, slug, k - 1);
      NamesAfter(src, t, rows, newId, rows[k - 1].name);
      NameMatchStep(t, rows, slug, k);
      NameMatchStep(t', rows, slug, k);
    }
  }

  /** The second run writes every source row to the entity the first run wrote it to. */
  ghost predicate SameTargets(t: Table, rows: seq<SourceRow>, newId: string -> int, t': Table) {
    forall i :: 0 <= i < |rows| ==> Matched(t', rows, rows[i].slug) == Some(Target(t, rows, newId, rows[i].slug))
  }

  /** A second run matches every row as the first one did exactly when no rows are crossed. */
  lemma {:induction false} SecondRunMatchesExactly(src: Source, t: Table, rows: seq<SourceRow>, newId: string -> int)
    requires Unique(t) && FreshIds(t, newId) && Accepted(src, t, rows, newId)
    ensures SameTargets(t, rows, newId, Synced(src, t, rows, newId)) <==> !Crossed(t, rows)
  {
    var t' := Synced(src, t, rows, newId);
    if Crossed(t, rows) {
      var i :| CrossedAt(t, rows, i);
      var slug := rows[i].slug;
      SlugsAfter(src, t, rows, newId, i);
      FoundBefore(j => CrossedAt(t, rows, j), rows, i, |rows|);
      NameMatchAfter(src, t, rows, newId, slug, |rows|);
      assert rows[..|rows|] == rows;
      MatchedIn(t, rows, slug);
      assert Matched(t', rows, slug) != Some(Target(t, rows, newId, slug));
    } else {
      forall i | 0 <= i < |rows|
        ensures Matched(t', rows, rows[i].slug) == Some(Target(t, rows, newId, rows[i].slug))
      {
        SlugsAfter(src, t, rows, newId, i);
        if BySlug(t, rows[i].slug).None? && Matched(t, rows, rows[i].slug).Some? {
          if CrossedBefore(t, rows, rows[i].slug, |rows|) {
            var j := FindBefore(j => CrossedAt(t, rows, j), rows, rows[i].slug, |rows|);
          }
          NameMatchAfter(src, t, rows, newId, rows[i].slug, |rows|);
          assert rows[..|rows|] == rows;
        }
      }
    }
  }

  /** Rows of one slug under one name are never crossed; a source without repeated slugs is such a source. */
  lemma {:induction false} OneNamePerSlugSuffices(t: Table, rows: seq<SourceRow>)
    requires forall i, j :: 0 <= i < |rows| && 0 <= j < |rows| && rows[i].slug == rows[j].slug ==>
      rows[i].name == rows[j].name
    ensures !Crossed(t, rows)
  {
    forall i ensures !CrossedAt(t, rows, i) {
      if CrossedAt(t, rows, i) {
        var j := MatchingRow(t, rows, rows[i].slug);
        assert rows[j].name == rows[i].name;
        NameMatchStep(t, rows, rows[i].slug, i + 1);
      }
    }
  }

  lemma {:induction false} MatchingRow(t: Table, rows: seq<SourceRow>, slug: string) returns (j: int)
    requires NameMatch(t, rows, slug).Some?
    ensures 0 <= j < |rows| && rows[j].slug == slug && NameMatch(t, rows, slug) == ByName(t, rows[j].name)
  {
    var front := rows[..|rows| - 1];
    if NameMatch(t, front, slug).Some? {
      j := MatchingRow(t, front, slug);
    } else {
      j := |rows| - 1;
    }
  }

  // ---- the second run changes nothing ----

  lemma {:induction false} SameLastRow(t: Table, rows: seq<SourceRow>, newId: string -> int, t': Table,
                                       newId': string -> int, id: int, k: nat)
    requires k <= |rows| && SameTargets(t, rows, newId, t')
    ensures LastRow(t', rows, newId', id, k) == LastRow(t, rows, newId, id, k)
  {
    if k > 0 {
      SameLastRow(t, rows, newId, t', newId', id, k - 1);
      assert Target(t', rows, newId', rows[k - 1].slug) == Target(t, rows, newId, rows[k - 1].slug);
    }
  }

  /** An entity's image, resolved once more for the last row that wrote it, stays. */
  lemma {:induction false} ImageSettled(src: Source, t: Table, rows: seq<SourceRow>, newId: string -> int,
                                        src': Source, i: nat)
    requires FreshIds(t, newId) && Accepted(src, t, rows, newId) && i < |rows|
    requires src' == src.(modes := src'.modes)
    requires SameTargets(t, rows, newId, Synced(src, t, rows, newId))
    ensures var t' := Synced(src, t, rows, newId);
            var id := Target(t, rows, newId, rows[i].slug);
            && id in t'
            && ResolvedImage(src', t', rows, rows[i].slug).Success?
            && (LastRow(t, rows, newId, id, |rows|) == i ==> NewImage(src', t', rows, rows[i].slug) == t'[id].image)
  {
    var t', slug := Synced(src, t, rows, newId), rows[i].slug;
    var id, url := Target(t, rows, newId, slug), ImageUrl(rows, slug);
    TargetPresent(src, t, rows, newId, |rows|, i);
    assert ResolvedImage(src', t', rows, slug) == Resolve(src', t'[id].image, slug, url);
    assert ResolvedImage(src, t, rows, slug).Success?;
    MatchedIn(t, rows, slug);
    if id in t && Mirrored(src.bucket, t[id].image) {
      EntityKept(src, t, rows, newId, |rows|, id);
    }
    if LastRow(t, rows, newId, id, |rows|) == i {
      LastRowDecidesImage(src, t, rows, newId, |rows|, id);
      ResolvedOrMissing(src, CurrentImage(t, rows, slug), slug, url);
    }
  }

  /** Everything but the image of an entity is settled for the second run. */
  lemma {:induction false} UpdateAgain(src: Source, e: Entity, row: SourceRow, image: Option<string>)
    requires Settled(e, row)
    ensures Updated(src, e, row, image) == e.(image := image)
  {
    Aliases.MergeAgain(e.aliases, row.aliases, e.name);
  }

  ghost predicate SameButImages(t: Table, u: Table) {
    && t.Keys == u.Keys
    && forall id :: id in t ==> u[id] == t[id].(image := u[id].image)
  }

  lemma {:induction false} AnotherImage(src: Source, t: Table, u: Table, id: int, row: SourceRow, image: Option<string>)
    requires SameButImages(t, u) && id in t && Settled(t[id], row)
    ensures SameButImages(t, NextTable(src, u, row, id, image))
  {
    UpdateAgain(src, u[id], row, image);
  }

  /** The row's entity is there and settled. */
  ghost predicate SettledIn(t: Table, rows: seq<SourceRow>, newId: string -> int, i: nat)
    requires i < |rows|
  {
    var id := Target(t, rows, newId, rows[i].slug);
    id in t && Settled(t[id], rows[i])
  }

  /** A sync of a table in which every row is settled changes images only. */
  lemma {:induction false} SettledSyncKeepsRest(src: Source, t: Table, rows: seq<SourceRow>, newId: string -> int,
                                                k: nat)
    requires k <= |rows| && forall i :: 0 <= i < |rows| ==> SettledIn(t, rows, newId, i)
    ensures SameButImages(t, Upserted(src, t, rows, newId, k))
  {
    if k > 0 {
      var row := rows[k - 1];
      SettledSyncKeepsRest(src, t, rows, newId, k - 1);
      assert SettledIn(t, rows, newId, k - 1);
      AnotherImage(src, t, Upserted(src, t, rows, newId, k - 1), Target(t, rows, newId, row.slug), row,
                   NewImage(src, t, rows, row.slug));
    }
  }

  lemma {:induction false} RowsSettled(src: Source, t: Table, rows: seq<SourceRow>, newId: string -> int,
                                       newId': string -> int)
    requires ParentsFound(src, t, rows, newId) && SameTargets(t, rows, newId, Synced(src, t, rows, newId))
    ensures forall i :: 0 <= i < |rows| ==> SettledIn(Synced(src, t, rows, newId), rows, newId', i)
  {
    forall i | 0 <= i < |rows|
      ensures SettledIn(Synced(src, t, rows, newId), rows, newId', i)
    {
      RowSettled(src, t, rows, newId, |rows|, i);
    }
  }

  lemma {:induction false} SettledParents(src: Source, t: Table, rows: seq<SourceRow>, newId: string -> int, k: nat)
    requires k < |rows| && forall i :: 0 <= i < |rows| ==> SettledIn(t, rows, newId, i)
    ensures ParentFoundAt(src, t, rows, newId, k)
  {
    SettledSyncKeepsRest(src, t, rows, newId, k);
    assert SettledIn(t, rows, newId, k);
  }

  /**
   Without crossed rows a second sync of the same rows, with the same image source, goes through and
   changes nothing: it creates nothing and every row is as the first sync left it.
   */
  lemma {:induction false} SecondRunChangesNothing(src: Source, t: Table, rows: seq<SourceRow>, newId: string -> int,
                                                   src': Source, newId': string -> int)
    requires Unique(t) && FreshIds(t, newId) && Accepted(src, t, rows, newId) && !Crossed(t, rows)
    requires src' == src.(modes := src'.modes)
    ensures var t' := Synced(src, t, rows, newId);
            Accepted(src', t', rows, newId') && Synced(src', t', rows, newId') == t'
  {
    var t' := Synced(src, t, rows, newId);
    SecondRunMatchesExactly(src, t, rows, newId);
    var again := Synced(src', t', rows, newId');
    RowsSettled(src, t, rows, newId, newId');
    SettledSyncKeepsRest(src', t', rows, newId', |rows|);
    forall i | 0 <= i < |rows|
      ensures ResolvedImage(src', t', rows, rows[i].slug).Success?
      ensures ParentFoundAt(src', t', rows, newId', i)
    {
      ImageSettled(src, t, rows, newId, src', i);
      SettledParents(src', t', rows, newId', i);
    }
    forall id | id in t'
      ensures again[id] == t'[id]
    {
      LastRowDecidesImage(src', t', rows, newId', |rows|, id);
      SameLastRow(t, rows, newId, t', newId', id, |rows|);
      var j := LastRow(t, rows, newId, id, |rows|);
      if j >= 0 {
        ImageSettled(src, t, rows, newId, src', j);
      }
    }
    assert again == t';
  }

  // ---- crossed rows do change ----

  /** Sources with the same slugs and names, row by row. */
  ghost predicate SameKeys(a: seq<SourceRow>, b: seq<SourceRow>) {
    |a| == |b| && forall i :: 0 <= i < |a| ==> a[i].slug == b[i].slug && a[i].name == b[i].name
  }

  /** Tables with the same entities but for what the sync writes to an existing one. */
  ghost predicate SameNames(t: Table, u: Table) {
    t.Keys == u.Keys && forall id :: id in t ==> t[id].slug == u[id].slug && t[id].name == u[id].name
  }

  lemma {:induction false} UniqueByNames(t: Table, u: Table)
    requires SameNames(t, u) && Unique(t)
    ensures Unique(u)
  {
  }

  lemma {:induction false} SameMatches(t: Table, a: seq<SourceRow>, b: seq<SourceRow>, slug: string)
    requires SameKeys(a, b)
    ensures NameMatch(t, a, slug) == NameMatch(t, b, slug) && Matched(t, a, slug) == Matched(t, b, slug)
  {
    if a != [] {
      var n := |a| - 1;
      SameMatches(t, a[..n], b[..n], slug);
      assert a[n].slug == b[n].slug && a[n].name == b[n].name;
    }
  }

  /** Whether rows are crossed depends on their slugs and names only. */
  lemma {:induction false} SameCrossed(t: Table, a: seq<SourceRow>, b: seq<SourceRow>, i: int)
    requires SameKeys(a, b) && CrossedAt(t, a, i)
    ensures CrossedAt(t, b, i)
  {
    SameMatches(t, a, b, a[i].slug);
    SameMatches(t, a[..i + 1], b[..i + 1], a[i].slug);
    var j :| FirstOf(a, j) && Matched(t, a, a[j].slug).None? && a[j].name == a[i].name;
    SameMatches(t, a, b, a[j].slug);
    assert FirstOf(b, j);
  }

  lemma {:induction false} NextNames(src: Source, src': Source, t: Table, u: Table, a: SourceRow, b: SourceRow, id: int,
                                     image: Option<string>, image': Option<string>)
    requires SameNames(t, u) && a.slug == b.slug && a.name == b.name
    ensures SameNames(NextTable(src, t, a, id, image), NextTable(src', u, b, id, image'))
  {
  }

  /** The entities' slugs and names after a sync depend on the rows' slugs and names only. */
  lemma {:induction false} NamesByKeys(src: Source, src': Source, t: Table, a: seq<SourceRow>, b: seq<SourceRow>,
                                       newId: string -> int, k: nat)
    requires SameKeys(a, b) && k <= |a|
    ensures SameNames(Upserted(src, t, a, newId, k), Upserted(src', t, b, newId, k))
  {
    if k > 0 {
      var slug := a[k - 1].slug;
      NamesByKeys(src, src', t, a, b, newId, k - 1);
      SameMatches(t, a, b, slug);
      NextNames(src, src', Upserted(src, t, a, newId, k - 1), Upserted(src', t, b, newId, k - 1), a[k - 1], b[k - 1],
                Target(t, a, newId, slug), NewImage(src, t, a, slug), NewImage(src', t, b, slug));
    }
  }

  lemma {:induction false} NothingRaises(src: Source, t: Table, rows: seq<SourceRow>, newId: string -> int)
    requires forall slug, url :: src.download(slug, url) == Missing
    requires forall i :: 0 <= i < |rows| ==> rows[i].parentSlug.None?
    ensures ImagesOk(src, t, rows) && ParentsFound(src, t, rows, newId)
  {
    forall i | 0 <= i < |rows|
      ensures ResolvedImage(src, t, rows, rows[i].slug).Success? && ParentFoundAt(src, t, rows, newId, i)
    {
    }
  }

  /** After a sync every row of its source is matched. */
  lemma {:induction false} AllMatchedAfter(src: Source, t: Table, rows: seq<SourceRow>, newId: string -> int, i: nat)
    requires Unique(t) && FreshIds(t, newId) && Accepted(src, t, rows, newId) && i < |rows|
    ensures Matched(Synced(src, t, rows, newId), rows, rows[i].slug).Some?
  {
    SlugsAfter(src, t, rows, newId, i);
    if BySlug(t, rows[i].slug).None? && Matched(t, rows, rows[i].slug).Some? {
      NameMatchAfter(src, t, rows, newId, rows[i].slug, |rows|);
      assert rows[..|rows|] == rows;
    }
  }

  /** A sync of matched rows creates nothing and renames nothing. */
  lemma {:induction false} MatchedKeepsNames(src: Source, t: Table, rows: seq<SourceRow>, newId: string -> int, k: nat)
    requires k <= |rows| && forall i :: 0 <= i < |rows| ==> Matched(t, rows, rows[i].slug).Some?
    ensures SameNames(t, Upserted(src, t, rows, newId, k))
  {
    if k > 0 {
      MatchedKeepsNames(src, t, rows, newId, k - 1);
      MatchedIn(t, rows, rows[k - 1].slug);
    }
  }

  /** A created entity that no row gives an alias has none. */
  lemma {:induction false} NoAliasGiven(src: Source, t: Table, rows: seq<SourceRow>, newId: string -> int, k: nat,
                                        id: int)
    requires k <= |rows| && id !in t
    requires forall i :: 0 <= i < |rows| && Target(t, rows, newId, rows[i].slug) == id ==> rows[i].aliases == []
    ensures id in Upserted(src, t, rows, newId, k) ==> Upserted(src, t, rows, newId, k)[id].aliases == []
  {
    if k > 0 {
      NoAliasGiven(src, t, rows, newId, k - 1, id);
    }
  }

  /** The rows with one alias for the rows of one slug, no other alias and no parents. */
  function Aliased(rows: seq<SourceRow>, slug: string, alias: string): seq<SourceRow> {
    seq(|rows|, i requires 0 <= i < |rows| =>
      rows[i].(aliases := if rows[i].slug == slug then [alias] else [], parentSlug := None))
  }

  function NoImages(src: Source): Source {
    src.(download := (slug, url) => Missing)
  }

  /** The rows with other aliases are accepted where the rows themselves are, and so is their second sync. */
  lemma {:induction false} AliasedAccepted(src: Source, t: Table, rows: seq<SourceRow>, newId: string -> int,
                                           newId': string -> int, slug: string, alias: string)
    requires Unique(t) && FreshIds(t, newId) && Accepted(src, t, rows, newId)
    ensures var again, src' := Aliased(rows, slug, alias), NoImages(src);
            && SameKeys(rows, again) && Accepted(src', t, again, newId)
            && Accepted(src', Synced(src', t, again, newId), again, newId')
  {
    var again, src' := Aliased(rows, slug, alias), NoImages(src);
    forall i | 0 <= i < |again| ensures src'.valid(again[i].attrs) {
      assert src.valid(rows[i].attrs);
    }
    NamesByKeys(src, src', t, rows, again, newId, |rows|);
    UniqueByNames(Synced(src, t, rows, newId), Synced(src', t, again, newId));
    NothingRaises(src', t, again, newId);
    var t' := Synced(src', t, again, newId);
    NothingRaises(src', t', again, newId');
    forall i | 0 <= i < |again| ensures Matched(t', again, again[i].slug).Some? {
      AllMatchedAfter(src', t, again, newId, i);
    }
    MatchedKeepsNames(src', t', again, newId', |again|);
    UniqueByNames(t', Synced(src', t', again, newId'));
  }

  /** The second sync of a crossed slug writes to an entity that the first sync created for another slug. */
  lemma {:induction false} CrossedTarget(src: Source, t: Table, rows: seq<SourceRow>, newId: string -> int, i: int)
    returns (id: int)
    requires Unique(t) && FreshIds(t, newId) && Accepted(src, t, rows, newId) && CrossedAt(t, rows, i)
    ensures var t' := Synced(src, t, rows, newId);
            && Matched(t', rows, rows[i].slug) == Some(id) && id !in t && id in t'
            && (forall j :: 0 <= j < |rows| && rows[j].slug == rows[i].slug ==>
              Target(t, rows, newId, rows[j].slug) != id)
  {
    var t', slug := Synced(src, t, rows, newId), rows[i].slug;
    SlugsAfter(src, t, rows, newId, i);
    FoundBefore(j => CrossedAt(t, rows, j), rows, i, |rows|);
    NameMatchAfter(src, t, rows, newId, slug, |rows|);
    assert rows[..|rows|] == rows;
    id := NameMatch(t', rows, slug).value;
    NameMatchIn(t', rows, slug);
    NameMatchIn(t, rows, slug);
  }

  /** A row's aliases, but for the entity's name, are with its entity after the sync. */
  lemma {:induction false} AliasArrives(src: Source, t: Table, rows: seq<SourceRow>, newId: string -> int, i: nat,
                                        id: int, alias: string)
    requires i < |rows| && ParentsFound(src, t, rows, newId)
    requires Matched(t, rows, rows[i].slug) == Some(id) && id in t
    requires alias in rows[i].aliases && alias != t[id].name
    ensures id in Synced(src, t, rows, newId) && alias in Synced(src, t, rows, newId)[id].aliases
  {
    RowSettled(src, t, rows, newId, |rows|, i);
    NameStays(src, t, rows, newId, |rows|, id);
  }

  lemma {:induction false} NameStays(src: Source, t: Table, rows: seq<SourceRow>, newId: string -> int, k: nat, id: int)
    requires k <= |rows| && id in t
    ensures id in Upserted(src, t, rows, newId, k)
    ensures var e := Upserted(src, t, rows, newId, k)[id];
            e.slug == t[id].slug && e.name == t[id].name
  {
    if k > 0 {
      NameStays(src, t, rows, newId, k - 1, id);
    }
  }

  /**
   For every accepted source with crossed rows, a source with the same slugs and names is accepted whose
   second sync goes through and changes the table: the crossed slug's alias reaches a created entity.
   */
  lemma {:induction false} CrossedRowsChange(src: Source, t: Table, rows: seq<SourceRow>, newId: string -> int,
                                             newId': string -> int)
    returns (src': Source, again: seq<SourceRow>)
    requires Unique(t) && FreshIds(t, newId) && Accepted(src, t, rows, newId) && Crossed(t, rows)
    ensures SameKeys(rows, again) && Accepted(src', t, again, newId)
    ensures var t' := Synced(src', t, again, newId);
            Accepted(src', t', again, newId') && Synced(src', t', again, newId') != t'
  {
    var i :| CrossedAt(t, rows, i);
    var slug := rows[i].slug;
    var id := CrossedTarget(src, t, rows, newId, i);
    var alias := Synced(src, t, rows, newId)[id].name + "?";
    src', again := NoImages(src), Aliased(rows, slug, alias);
    AliasedAccepted(src, t, rows, newId, newId', slug, alias);
    SameCrossed(t, rows, again, i);
    var t' := Synced(src', t, again, newId);
    NamesByKeys(src, src', t, rows, again, newId, |rows|);
    assert SameNames(Synced(src, t, rows, newId), t');
    SameMatchesAfter(src, src', t, rows, again, newId, slug);
    assert Matched(t', again, again[i].slug) == Some(id);
    forall j | 0 <= j < |again| && Target(t, again, newId, again[j].slug) == id ensures again[j].aliases == [] {
      SameMatches(t, rows, again, again[j].slug);
      assert rows[j].slug != slug;
    }
    NoAliasGiven(src', t, again, newId, |again|, id);
    assert alias in again[i].aliases && alias != t'[id].name;
    AliasArrives(src', t', again, newId', i, id, alias);
  }

  lemma {:induction false} SameMatchesAfter(src: Source, src': Source, t: Table, rows: seq<SourceRow>,
                                            again: seq<SourceRow>, newId: string -> int, slug: string)
    requires SameKeys(rows, again) && Unique(Synced(src, t, rows, newId))
    ensures Matched(Synced(src, t, rows, newId), rows, slug) == Matched(Synced(src', t, again, newId), again, slug)
  {
    NamesByKeys(src, src', t, rows, again, newId, |rows|);
    SameMatchesIn(Synced(src, t, rows, newId), Synced(src', t, again, newId), rows, slug);
    SameMatches(Synced(src', t, again, newId), rows, again, slug);
  }

  /** Matching looks at slugs and names only. */
  lemma {:induction false} SameMatchesIn(t: Table, u: Table, rows: seq<SourceRow>, slug: string)
    requires SameNames(t, u) && Unique(t)
    ensures NameMatch(t, rows, slug) == NameMatch(u, rows, slug) && Matched(t, rows, slug) == Matched(u, rows, slug)
  {
    UniqueByNames(t, u);
    SameLookups(t, u, slug);
    if rows != [] {
      SameMatchesIn(t, u, rows[..|rows| - 1], slug);
      SameLookups(t, u, rows[|rows| - 1].name);
    }
  }

  lemma {:induction false} SameLookups(t: Table, u: Table, key: string)
    requires SameNames(t, u) && Unique(t) && Unique(u)
    ensures BySlug(t, key) == BySlug(u, key) && ByName(t, key) == ByName(u, key)
  {
    if BySlug(t, key).Some? {
      BySlugIs(u, BySlug(t, key).value);
    }
    if ByName(t, key).Some? {
      BySlugIs(u, ByName(t, key).value);
    }
  }

  /** Of all sources with the rows' slugs and names, none that is accepted is changed by its second sync. */
  ghost predicate AlwaysStable(t: Table, rows: seq<SourceRow>, newId: string -> int, newId': string -> int) {
    forall src: Source, again: seq<SourceRow> :: SameKeys(rows, again) && Accepted(src, t, again, newId) ==>
      Settles(src, t, again, newId, newId')
  }

  /** A second sync that goes through leaves the table as it is. */
  ghost predicate Settles(src: Source, t: Table, rows: seq<SourceRow>, newId: string -> int, newId': string -> int) {
    var t' := Synced(src, t, rows, newId);
    Accepted(src, t', rows, newId') ==> Synced(src, t', rows, newId') == t'
  }

  /** For the slugs and names of an accepted source, second syncs change nothing exactly when no rows are crossed. */
  lemma {:induction false} StableExactly(src: Source, t: Table, rows: seq<SourceRow>, newId: string -> int,
                                         newId': string -> int)
    requires Unique(t) && FreshIds(t, newId) && Accepted(src, t, rows, newId)
    ensures AlwaysStable(t, rows, newId, newId') <==> !Crossed(t, rows)
  {
    if Crossed(t, rows) {
      var src', again := CrossedRowsChange(src, t, rows, newId, newId');
      assert !Settles(src', t, again, newId, newId');
    } else {
      forall src': Source, again: seq<SourceRow> | SameKeys(rows, again) && Accepted(src', t, again, newId)
        ensures Settles(src', t, again, newId, newId')
      {
        if Crossed(t, again) {
          var i :| CrossedAt(t, again, i);
          SameCrossed(t, again, rows, i);
        }
        SecondRunChangesNothing(src', t, again, newId, src', newId');
      }
    }
  }

  /** Two rows of one slug, the first under an unknown name that a third row creates. */
  ghost predicate CrossedShape(t: Table, first: SourceRow, second: SourceRow, third: SourceRow) {
    && first.slug == second.slug != third.slug && first.name == third.name != second.name
    && BySlug(t, first.slug).None? && BySlug(t, third.slug).None?
    && ByName(t, first.name).None? && ByName(t, second.name).Some?
    && first.parentSlug == second.parentSlug == third.parentSlug == None
  }

  lemma {:induction false} CrossedMatches(t: Table, first: SourceRow, second: SourceRow, third: SourceRow)
    requires CrossedShape(t, first, second, third)
    ensures var rows := [first, second, third];
            && Matched(t, rows, first.slug).Some? && Matched(t, rows, third.slug).None? && FirstOf(rows, 2)
            && Crossed(t, rows)
  {
    var rows := [first, second, third];
    assert rows[..3] == rows && rows[..0] == [];
    NameMatchStep(t, rows, first.slug, 1);
    NameMatchStep(t, rows, first.slug, 2);
    NameMatchStep(t, rows, first.slug, 3);
    NameMatchStep(t, rows, third.slug, 1);
    NameMatchStep(t, rows, third.slug, 2);
    NameMatchStep(t, rows, third.slug, 3);
    assert FirstOf(rows, 2);
    assert NameIsCreated(t, rows, rows[0].name);
    assert CrossedAt(t, rows, 0);
  }

  /** Sources of that shape are accepted, so crossed rows do come through. */
  lemma {:induction false} CrossedAccepted(src: Source, newId: string -> int, t: Table, first: SourceRow,
                                           second: SourceRow, third: SourceRow)
    requires CrossedShape(t, first, second, third) && Unique(t) && FreshIds(t, newId)
    requires (forall slug, url :: src.download(slug, url) == Missing) && (forall a :: src.valid(a))
    ensures Crossed(t, [first, second, third]) && Accepted(src, t, [first, second, third], newId)
  {
    var rows := [first, second, third];
    CrossedMatches(t, first, second, third);
    NothingRaises(src, t, rows, newId);
    var t' := Synced(src, t, rows, newId);
    forall id | id in t'
      ensures if id in t then t'[id].slug == t[id].slug && t'[id].name == t[id].name
              else id == newId(third.slug) && t'[id].slug == third.slug && t'[id].name == third.name
    {
      if id in t {
        EntityKept(src, t, rows, newId, 3, id);
      } else {
        CrossedCreates(src, newId, t, first, second, third, id);
      }
    }
    OneNewKeepsUnique(t, t', newId(third.slug));
  }

  lemma {:induction false} CrossedCreates(src: Source, newId: string -> int, t: Table, first: SourceRow,
                                          second: SourceRow, third: SourceRow, id: int)
    requires CrossedShape(t, first, second, third) && FreshIds(t, newId)
    requires id !in t && id in Synced(src, t, [first, second, third], newId)
    ensures var e := Synced(src, t, [first, second, third], newId)[id];
            id == newId(third.slug) && e.slug == third.slug && e.name == third.name
  {
    var rows := [first, second, third];
    CrossedMatches(t, first, second, third);
    var i := EntityCreated(src, t, rows, newId, 3, id);
  }

  lemma {:induction false} OneNewKeepsUnique(t: Table, t': Table, c: int)
    requires Unique(t) && (forall id :: id in t' && id !in t ==> id == c)
    requires forall id :: id in t' && id in t ==> t'[id].slug == t[id].slug && t'[id].name == t[id].name
    requires c in t' && c !in t ==> BySlug(t, t'[c].slug).None? && ByName(t, t'[c].name).None?
    ensures Unique(t')
  {
    forall a, b | a in t' && b in t' && (t'[a].slug == t'[b].slug || t'[a].name == t'[b].name)
      ensures a == b
    {
      if a in t {
        BySlugIs(t, a);
      }
      if b in t {
        BySlugIs(t, b);
      }
    }
  }

  /** A concrete catalog and source of that shape. */
  lemma {:induction false} CrossedShapeExists()
    ensures CrossedShape(map[0 := Entity("e", "N", 0, None, [], None)], SourceRow("b", "M", "", 0, [], None),
                         SourceRow("b", "N", "", 0, [], None), SourceRow("c", "M", "", 0, [], None))
  {
    var t := map[0 := Entity("e", "N", 0, None, [], None)];
    assert 0 in t && t[0].name == "N";
  }

  // ---- the table after a sync, in terms of the rows ----

  /** Row `i` writes to the entity. */
  ghost predicate Writes(t: Table, rows: seq<SourceRow>, newId: string -> int, i: int, id: int) {
    0 <= i < |rows| && Target(t, rows, newId, rows[i].slug) == id
  }

  ghost predicate LastWrite(t: Table, rows: seq<SourceRow>, newId: string -> int, i: int, id: int) {
    Writes(t, rows, newId, i, id) && forall j :: i < j < |rows| ==> !Writes(t, rows, newId, j, id)
  }

  /** Row `j` names an entity of the table. */
  ghost predicate KnownBy(t: Table, rows: seq<SourceRow>, slug: string, j: int, e: int) {
    0 <= j < |rows| && rows[j].slug == slug && e in t && t[e].name == rows[j].name
  }

  lemma {:induction false} NameMatchIsFirst(t: Table, rows: seq<SourceRow>, slug: string, k: nat, j: int, e: int)
    requires Unique(t) && k <= |rows|
    requires KnownBy(t, rows, slug, j, e) && j < k
    requires forall i, f :: 0 <= i < j ==> !KnownBy(t, rows, slug, i, f)
    ensures NameMatch(t, rows[..k], slug) == Some(e)
    decreases k
  {
    NameMatchStep(t, rows, slug, k);
    if j < k - 1 {
      NameMatchIsFirst(t, rows, slug, k - 1, j, e);
    } else {
      NoNameMatch(t, rows, slug, j);
      BySlugIs(t, e);
    }
  }

  lemma {:induction false} NoNameMatch(t: Table, rows: seq<SourceRow>, slug: string, k: nat)
    requires k <= |rows| && forall i, f :: 0 <= i < k ==> !KnownBy(t, rows, slug, i, f)
    ensures NameMatch(t, rows[..k], slug).None?
  {
    if k > 0 {
      NoNameMatch(t, rows, slug, k - 1);
      NameMatchStep(t, rows, slug, k);
      if e :| e in t && t[e].name == rows[k - 1].name {
        assert KnownBy(t, rows, slug, k - 1, e) <==> rows[k - 1].slug == slug;
      }
    }
  }

  /**
   A slug's rows write to the entity with that slug; without one to the entity that its first row with a
   known name names; without one either to a new entity of their own.
   */
  lemma {:induction false} TargetExactly(t: Table, rows: seq<SourceRow>, newId: string -> int, slug: string)
    requires Unique(t)
    ensures forall e :: e in t && t[e].slug == slug ==> Target(t, rows, newId, slug) == e
    ensures forall j, e :: (forall f :: f in t ==> t[f].slug != slug) && KnownBy(t, rows, slug, j, e)
                           && (forall i, f :: 0 <= i < j ==> !KnownBy(t, rows, slug, i, f)) ==>
              Target(t, rows, newId, slug) == e
    ensures (forall f :: f in t ==> t[f].slug != slug) && (forall j, e :: !KnownBy(t, rows, slug, j, e)) ==>
              Matched(t, rows, slug).None? && Target(t, rows, newId, slug) == newId(slug)
  {
    forall e | e in t && t[e].slug == slug
      ensures Target(t, rows, newId, slug) == e
    {
      BySlugIs(t, e);
    }
    assert rows[..|rows|] == rows;
    if forall f :: f in t ==> t[f].slug != slug {
      forall j, e | KnownBy(t, rows, slug, j, e) && (forall i, f :: 0 <= i < j ==> !KnownBy(t, rows, slug, i, f))
        ensures Target(t, rows, newId, slug) == e
      {
        NameMatchIsFirst(t, rows, slug, |rows|, j, e);
      }
      if forall j, e :: !KnownBy(t, rows, slug, j, e) {
        NoNameMatch(t, rows, slug, |rows|);
      }
    }
  }

  lemma {:induction false} ImageUrlIsLast(rows: seq<SourceRow>, k: nat, i: nat)
    requires i < k <= |rows| && forall j :: i < j < k ==> rows[j].slug != rows[i].slug
    ensures ImageUrl(rows[..k], rows[i].slug) == rows[i].imageUrl
    decreases k
  {
    assert rows[..k][..k - 1] == rows[..k - 1];
    if i < k - 1 {
      ImageUrlIsLast(rows, k - 1, i);
    }
  }

  lemma {:induction false} LastRowIs(t: Table, rows: seq<SourceRow>, newId: string -> int, id: int, i: nat, k: nat)
    requires i < k <= |rows| && Writes(t, rows, newId, i, id)
    requires forall j :: i < j < k ==> !Writes(t, rows, newId, j, id)
    ensures LastRow(t, rows, newId, id, k) == i
    decreases k
  {
    if i < k - 1 {
      assert !Writes(t, rows, newId, k - 1, id);
      LastRowIs(t, rows, newId, id, i, k - 1);
    }
  }

  /**
   The image of a written entity: one that was on the bucket stays; else the last row that writes decides,
   and the entity has the bucket's address of exactly the key its download answered, or none for a
   missing image.
   */
  lemma {:induction false} ImageAfterSync(src: Source, t: Table, rows: seq<SourceRow>, newId: string -> int, i: int,
                                          id: int)
    requires FreshIds(t, newId) && Accepted(src, t, rows, newId) && LastWrite(t, rows, newId, i, id)
    ensures id in Synced(src, t, rows, newId)
    ensures var image := Synced(src, t, rows, newId)[id].image;
            if id in t && t[id].image.Some? && src.bucket + "/" <= t[id].image.value then image == t[id].image
            else
              match src.download(rows[i].slug, rows[i].imageUrl)
              case Image(key) => image == Some(src.bucket + "/" + key)
              case Missing => image == None
              case Broken => false
  {
    var slug := rows[i].slug;
    TargetPresent(src, t, rows, newId, |rows|, i);
    LastRowIs(t, rows, newId, id, i, |rows|);
    LastRowDecidesImage(src, t, rows, newId, |rows|, id);
    forall j | i < j < |rows|
      ensures rows[j].slug != slug
    {
      assert !Writes(t, rows, newId, j, id);
    }
    ImageUrlIsLast(rows, |rows|, i);
    assert rows[..|rows|] == rows;
    MatchedIn(t, rows, slug);
    assert CurrentImage(t, rows, slug) == if id in t then t[id].image else None;
    assert ResolvedImage(src, t, rows, slug).Success?;
    assert src.bucket + "/" + "" == src.bucket + "/";
  }

  // ---- the history of one entity ----

  /** What one row does to one entity: nothing, or its aliases and a missing parent. */
  ghost predicate EntityStep(src: Source, before: Option<Entity>, after: Option<Entity>, writes: bool, row: SourceRow) {
    if !writes then after == before
    else
      var e := if before.Some? then before.value else Created(row);
      && after.Some? && after.value.name == e.name
      && after.value.parent == (if e.parent.None? && ParentKnown(src, row) then Some(src.modes[row.parentSlug.value])
                                else e.parent)
      && Ordering.Ascending(after.value.aliases)
      && forall x :: x in after.value.aliases <==> x != e.name && (x in e.aliases || x in row.aliases)
  }

  ghost predicate StepAt(src: Source, rows: seq<SourceRow>, at: nat -> Option<Entity>, writes: nat -> bool, j: nat)
    requires j < |rows|
  {
    EntityStep(src, at(j), at(j + 1), writes(j), rows[j])
  }

  /** One entity before the first row and after each, given by the rows that write to it. */
  ghost predicate History(src: Source, rows: seq<SourceRow>, at: nat -> Option<Entity>, writes: nat -> bool) {
    forall j: nat {:trigger StepAt(src, rows, at, writes, j)} :: j < |rows| ==> StepAt(src, rows, at, writes, j)
  }

  ghost predicate AliasKnown(rows: seq<SourceRow>, at: nat -> Option<Entity>, writes: nat -> bool, k: nat, x: string)
    requires k <= |rows|
  {
    || (at(0).Some? && x in at(0).value.aliases)
    || exists i: nat :: i < k && writes(i) && x in rows[i].aliases
  }

  ghost predicate Unwritten(writes: nat -> bool, k: nat) {
    forall i: nat :: i < k ==> !writes(i)
  }

  lemma {:induction false} UnwrittenStays(src: Source, rows: seq<SourceRow>, at: nat -> Option<Entity>,
                                          writes: nat -> bool, k: nat)
    requires History(src, rows, at, writes) && k <= |rows| && Unwritten(writes, k)
    ensures at(k) == at(0)
  {
    if k > 0 {
      UnwrittenStays(src, rows, at, writes, k - 1);
      assert StepAt(src, rows, at, writes, k - 1);
    }
  }

  lemma {:induction false} AliasesUpTo(src: Source, rows: seq<SourceRow>, at: nat -> Option<Entity>,
                                       writes: nat -> bool, k: nat, x: string)
    requires History(src, rows, at, writes) && k <= |rows| && !Unwritten(writes, k)
    ensures at(k).Some? && Ordering.Ascending(at(k).value.aliases)
    ensures x in at(k).value.aliases <==> x != at(k).value.name && AliasKnown(rows, at, writes, k, x)
  {
    assert StepAt(src, rows, at, writes, k - 1);
    if Unwritten(writes, k - 1) {
      UnwrittenStays(src, rows, at, writes, k - 1);
    } else {
      AliasesUpTo(src, rows, at, writes, k - 1, x);
    }
  }

  ghost predicate GivesParent(src: Source, rows: seq<SourceRow>, writes: nat -> bool, i: nat)
    requires i < |rows|
  {
    writes(i) && ParentKnown(src, rows[i])
  }

  lemma {:induction false} NoParentGiven(src: Source, rows: seq<SourceRow>, at: nat -> Option<Entity>,
                                         writes: nat -> bool, k: nat)
    requires History(src, rows, at, writes) && k <= |rows| && at(k).Some?
    requires forall i: nat :: i < k ==> !GivesParent(src, rows, writes, i)
    ensures at(k).value.parent == if at(0).Some? then at(0).value.parent else None
  {
    if k > 0 {
      assert StepAt(src, rows, at, writes, k - 1) && !GivesParent(src, rows, writes, k - 1);
      if at(k - 1).Some? {
        NoParentGiven(src, rows, at, writes, k - 1);
      } else {
        NeverThere(src, rows, at, writes, k - 1);
      }
    }
  }

  lemma {:induction false} NeverThere(src: Source, rows: seq<SourceRow>, at: nat -> Option<Entity>,
                                      writes: nat -> bool, k: nat)
    requires History(src, rows, at, writes) && k <= |rows| && at(k).None?
    ensures at(0).None?
  {
    if k > 0 {
      assert StepAt(src, rows, at, writes, k - 1);
      NeverThere(src, rows, at, writes, k - 1);
    }
  }

  /** A parent, once there, stays. */
  lemma {:induction false} ParentStays(src: Source, rows: seq<SourceRow>, at: nat -> Option<Entity>,
                                       writes: nat -> bool, i: nat, k: nat)
    requires History(src, rows, at, writes) && i <= k <= |rows| && at(i).Some? && at(i).value.parent.Some?
    ensures at(k).Some? && at(k).value.parent == at(i).value.parent
    decreases k
  {
    if i < k {
      ParentStays(src, rows, at, writes, i, k - 1);
      assert StepAt(src, rows, at, writes, k - 1);
    }
  }

  /** An entity without a parent gets that of its first row that names a known one. */
  lemma {:induction false} FirstParentStays(src: Source, rows: seq<SourceRow>, at: nat -> Option<Entity>,
                                            writes: nat -> bool, i: nat, k: nat)
    requires History(src, rows, at, writes) && i < k <= |rows| && (at(0).Some? ==> at(0).value.parent.None?)
    requires GivesParent(src, rows, writes, i) && forall j: nat :: j < i ==> !GivesParent(src, rows, writes, j)
    ensures at(k).Some? && at(k).value.parent == Some(src.modes[rows[i].parentSlug.value])
  {
    assert StepAt(src, rows, at, writes, i);
    if at(i).Some? {
      NoParentGiven(src, rows, at, writes, i);
    }
    ParentStays(src, rows, at, writes, i + 1, k);
  }

  /** An entity after `k` rows of a sync. */
  ghost function EntityAt(src: Source, t: Table, rows: seq<SourceRow>, newId: string -> int, id: int)
    : nat -> Option<Entity>
  {
    (k: nat) => if k <= |rows| && id in Upserted(src, t, rows, newId, k) then Some(Upserted(src, t, rows, newId, k)[id])
         else None
  }

  ghost function Writer(t: Table, rows: seq<SourceRow>, newId: string -> int, id: int): nat -> bool {
    (i: nat) => Writes(t, rows, newId, i, id)
  }

  lemma {:induction false} SyncIsHistory(src: Source, t: Table, rows: seq<SourceRow>, newId: string -> int, id: int)
    ensures History(src, rows, EntityAt(src, t, rows, newId, id), Writer(t, rows, newId, id))
  {
    forall j: nat | j < |rows|
      ensures StepAt(src, rows, EntityAt(src, t, rows, newId, id), Writer(t, rows, newId, id), j)
    {
      SyncStep(src, t, rows, newId, id, j);
    }
  }

  lemma {:induction false} SyncStep(src: Source, t: Table, rows: seq<SourceRow>, newId: string -> int, id: int, j: nat)
    requires j < |rows|
    ensures var at := EntityAt(src, t, rows, newId, id);
            EntityStep(src, at(j), at(j + 1), Writes(t, rows, newId, j, id), rows[j])
  {
    var e := Current(Upserted(src, t, rows, newId, j), rows[j], id);
    Aliases.MergeIsTheUnion(e.aliases, rows[j].aliases, e.name);
  }

  /**
   After a sync the aliases of a written entity are exactly those it had and those of the rows that write
   to it, without its own name, in order.
   */
  lemma {:induction false} AliasesAfterSync(src: Source, t: Table, rows: seq<SourceRow>, newId: string -> int, id: int,
                                            x: string)
    requires exists i :: Writes(t, rows, newId, i, id)
    ensures id in Synced(src, t, rows, newId)
    ensures var e := Synced(src, t, rows, newId)[id];
            && Ordering.Ascending(e.aliases)
            && (x in e.aliases <==>
                  x != e.name && ((id in t && x in t[id].aliases)
                                  || exists i :: Writes(t, rows, newId, i, id) && x in rows[i].aliases))
  {
    var at, writes := EntityAt(src, t, rows, newId, id), Writer(t, rows, newId, id);
    SyncIsHistory(src, t, rows, newId, id);
    assert forall i: nat :: i < |rows| ==> (writes(i) <==> Writes(t, rows, newId, i, id));
    assert !Unwritten(writes, |rows|);
    AliasesUpTo(src, rows, at, writes, |rows|, x);
  }

  // ---- when a sync goes through ----

  /** The first row that names a parent for an entity without one. */
  ghost predicate AsksParent(t: Table, rows: seq<SourceRow>, newId: string -> int, i: int, id: int) {
    && Writes(t, rows, newId, i, id) && rows[i].parentSlug.Some? && (id in t ==> t[id].parent.None?)
    && forall j :: 0 <= j < i && Writes(t, rows, newId, j, id) ==> rows[j].parentSlug.None?
  }

  lemma {:induction false} FirstToAsk(t: Table, rows: seq<SourceRow>, newId: string -> int, k: nat, id: int)
    returns (i: nat)
    requires Writes(t, rows, newId, k, id) && rows[k].parentSlug.Some? && (id in t ==> t[id].parent.None?)
    ensures i <= k && AsksParent(t, rows, newId, i, id)
    decreases k
  {
    if j :| 0 <= j < k && Writes(t, rows, newId, j, id) && rows[j].parentSlug.Some? {
      i := FirstToAsk(t, rows, newId, j, id);
    } else {
      i := k;
    }
  }

  /** At its first request an entity has no parent yet. */
  lemma {:induction false} NoParentYet(src: Source, t: Table, rows: seq<SourceRow>, newId: string -> int, i: int,
                                       id: int)
    requires AsksParent(t, rows, newId, i, id)
    ensures id in Upserted(src, t, rows, newId, i) ==> Upserted(src, t, rows, newId, i)[id].parent.None?
  {
    var at, writes := EntityAt(src, t, rows, newId, id), Writer(t, rows, newId, id);
    SyncIsHistory(src, t, rows, newId, id);
    assert forall j: nat :: j < i ==> !GivesParent(src, rows, writes, j);
    if at(i).Some? {
      NoParentGiven(src, rows, at, writes, i);
    }
  }

  /** Behind a first request that names a known mode the entity has that parent. */
  lemma {:induction false} ParentFromThen(src: Source, t: Table, rows: seq<SourceRow>, newId: string -> int, i: int,
                                          id: int, k: nat)
    requires AsksParent(t, rows, newId, i, id) && ParentKnown(src, rows[i]) && i < k <= |rows|
    ensures id in Upserted(src, t, rows, newId, k)
    ensures Upserted(src, t, rows, newId, k)[id].parent == Some(src.modes[rows[i].parentSlug.value])
  {
    var at, writes := EntityAt(src, t, rows, newId, id), Writer(t, rows, newId, id);
    SyncIsHistory(src, t, rows, newId, id);
    assert forall j: nat :: j < i ==> !GivesParent(src, rows, writes, j);
    FirstParentStays(src, rows, at, writes, i, k);
    assert at(k) == Some(Upserted(src, t, rows, newId, k)[id]);
  }

  lemma {:induction false} OwnParentStays(src: Source, t: Table, rows: seq<SourceRow>, newId: string -> int, k: nat,
                                          id: int)
    requires k <= |rows| && id in t && t[id].parent.Some?
    ensures id in Upserted(src, t, rows, newId, k) && Upserted(src, t, rows, newId, k)[id].parent == t[id].parent
  {
    var at := EntityAt(src, t, rows, newId, id);
    SyncIsHistory(src, t, rows, newId, id);
    ParentStays(src, rows, at, Writer(t, rows, newId, id), 0, k);
    assert at(k) == Some(Upserted(src, t, rows, newId, k)[id]);
  }

  /** Every entity's first request for a parent names a known mode. */
  ghost predicate RequestsKnown(src: Source, t: Table, rows: seq<SourceRow>, newId: string -> int) {
    forall i, id :: AsksParent(t, rows, newId, i, id) ==>
      rows[i].parentSlug.value != "" && rows[i].parentSlug.value in src.modes
  }

  /** No parent is missing exactly then. */
  lemma {:induction false} ParentsFoundExactly(src: Source, t: Table, rows: seq<SourceRow>, newId: string -> int)
    ensures ParentsFound(src, t, rows, newId) <==> RequestsKnown(src, t, rows, newId)
  {
    if ParentsFound(src, t, rows, newId) {
      forall i, id | AsksParent(t, rows, newId, i, id)
        ensures ParentKnown(src, rows[i])
      {
        assert ParentFoundAt(src, t, rows, newId, i);
        NoParentYet(src, t, rows, newId, i, id);
      }
    }
    if RequestsKnown(src, t, rows, newId) {
      forall k | 0 <= k < |rows|
        ensures ParentFoundAt(src, t, rows, newId, k)
      {
        HasParentOrAsks(src, t, rows, newId, k, Target(t, rows, newId, rows[k].slug));
      }
    }
  }

  lemma {:induction false} HasParentOrAsks(src: Source, t: Table, rows: seq<SourceRow>, newId: string -> int, k: nat,
                                           id: int)
    requires Writes(t, rows, newId, k, id) && RequestsKnown(src, t, rows, newId)
    ensures ParentFound(src, Upserted(src, t, rows, newId, k), rows[k], id)
  {
    if rows[k].parentSlug.Some? {
      if id in t && t[id].parent.Some? {
        OwnParentStays(src, t, rows, newId, k, id);
      } else {
        var i := FirstToAsk(t, rows, newId, k, id);
        if i < k {
          ParentFromThen(src, t, rows, newId, i, id, k);
        }
      }
    }
  }

  /** After a sync an entity has the parent it had, else that of its first row that names one, else none. */
  lemma {:induction false} ParentAfterSync(src: Source, t: Table, rows: seq<SourceRow>, newId: string -> int, id: int)
    requires ParentsFound(src, t, rows, newId) && id in Synced(src, t, rows, newId)
    ensures var parent := Synced(src, t, rows, newId)[id].parent;
            && (id in t && t[id].parent.Some? ==> parent == t[id].parent)
            && (forall i :: AsksParent(t, rows, newId, i, id) ==>
                  && rows[i].parentSlug.value in src.modes
                  && parent == Some(src.modes[rows[i].parentSlug.value]))
            && ((id in t ==> t[id].parent.None?) && (forall i :: !AsksParent(t, rows, newId, i, id)) ==> parent.None?)
  {
    ParentsFoundExactly(src, t, rows, newId);
    if id in t && t[id].parent.Some? {
      OwnParentStays(src, t, rows, newId, |rows|, id);
    } else if i :| AsksParent(t, rows, newId, i, id) {
      forall j | AsksParent(t, rows, newId, j, id)
        ensures j == i
      {
      }
      ParentFromThen(src, t, rows, newId, i, id, |rows|);
    } else {
      NobodyAsks(src, t, rows, newId, id);
    }
  }

  lemma {:induction false} NobodyAsks(src: Source, t: Table, rows: seq<SourceRow>, newId: string -> int, id: int)
    requires id in Synced(src, t, rows, newId) && (id in t ==> t[id].parent.None?)
    requires forall i :: !AsksParent(t, rows, newId, i, id)
    ensures Synced(src, t, rows, newId)[id].parent.None?
  {
    var at, writes := EntityAt(src, t, rows, newId, id), Writer(t, rows, newId, id);
    SyncIsHistory(src, t, rows, newId, id);
    forall j: nat | j < |rows|
      ensures !GivesParent(src, rows, writes, j)
    {
      if GivesParent(src, rows, writes, j) {
        var i := FirstToAsk(t, rows, newId, j, id);
      }
    }
    NoParentGiven(src, rows, at, writes, |rows|);
  }

  /** The last row of its slug. */
  ghost predicate LastOf(rows: seq<SourceRow>, i: int) {
    0 <= i < |rows| && forall j :: i < j < |rows| ==> rows[j].slug != rows[i].slug
  }

  lemma {:induction false} LastRowOf(rows: seq<SourceRow>, i: nat) returns (j: int)
    requires i < |rows|
    ensures LastOf(rows, j) && rows[j].slug == rows[i].slug
    decreases |rows| - i
  {
    if k :| i < k < |rows| && rows[k].slug == rows[i].slug {
      j := LastRowOf(rows, k);
    } else {
      j := i;
    }
  }

  /** The entity that the slug's rows write to is there and has an image on the bucket. */
  ghost predicate OnBucketBefore(src: Source, t: Table, id: int) {
    id in t && t[id].image.Some? && src.bucket + "/" <= t[id].image.value
  }

  /** No image fails exactly when the last row of every slug leads to one, unless the bucket has it. */
  lemma {:induction false} ImagesOkExactly(src: Source, t: Table, rows: seq<SourceRow>, newId: string -> int)
    requires FreshIds(t, newId)
    ensures ImagesOk(src, t, rows) <==>
            forall i :: LastOf(rows, i) ==>
              OnBucketBefore(src, t, Target(t, rows, newId, rows[i].slug))
              || src.download(rows[i].slug, rows[i].imageUrl) != Broken
  {
    forall i | LastOf(rows, i)
      ensures ResolvedImage(src, t, rows, rows[i].slug).Success? <==>
              OnBucketBefore(src, t, Target(t, rows, newId, rows[i].slug))
              || src.download(rows[i].slug, rows[i].imageUrl) != Broken
    {
      ImageUrlIsLast(rows, |rows|, i);
      assert rows[..|rows|] == rows;
      MatchedIn(t, rows, rows[i].slug);
      assert src.bucket + "/" + "" == src.bucket + "/";
    }
    forall i | 0 <= i < |rows|
      ensures exists j :: LastOf(rows, j) && rows[j].slug == rows[i].slug
    {
      var j := LastRowOf(rows, i);
    }
  }

  /** Created entities clash exactly when two slugs that match nothing begin with rows of one name. */
  lemma {:induction false} UniqueExactly(src: Source, t: Table, rows: seq<SourceRow>, newId: string -> int)
    requires Unique(t) && FreshIds(t, newId)
    ensures Unique(Synced(src, t, rows, newId)) <==>
            forall i, j :: Creates(t, rows, i) && Creates(t, rows, j) && rows[i].name == rows[j].name ==> i == j
  {
    var t' := Synced(src, t, rows, newId);
    if Unique(t') {
      forall i, j | Creates(t, rows, i) && Creates(t, rows, j) && rows[i].name == rows[j].name
        ensures i == j
      {
        CreatedIsThere(src, t, rows, newId, i);
        CreatedIsThere(src, t, rows, newId, j);
      }
    }
    if forall i, j :: Creates(t, rows, i) && Creates(t, rows, j) && rows[i].name == rows[j].name ==> i == j {
      forall a, b | a in t' && b in t' && (t'[a].slug == t'[b].slug || t'[a].name == t'[b].name)
        ensures a == b
      {
        if a in t && b in t {
          NameStays(src, t, rows, newId, |rows|, a);
          NameStays(src, t, rows, newId, |rows|, b);
        } else if a in t {
          CreatedIsApart(src, t, rows, newId, a, b);
        } else if b in t {
          CreatedIsApart(src, t, rows, newId, b, a);
        } else {
          var i := EntityCreated(src, t, rows, newId, |rows|, a);
          var j := EntityCreated(src, t, rows, newId, |rows|, b);
          assert Creates(t, rows, i) && Creates(t, rows, j);
        }
      }
    }
  }

  /** The row creates an entity: the first of a slug that matches nothing. */
  ghost predicate Creates(t: Table, rows: seq<SourceRow>, i: int) {
    FirstOf(rows, i) && Matched(t, rows, rows[i].slug).None?
  }

  lemma {:induction false} CreatedIsApart(src: Source, t: Table, rows: seq<SourceRow>, newId: string -> int, a: int,
                                          b: int)
    requires Unique(t) && FreshIds(t, newId) && a in t && b !in t && b in Synced(src, t, rows, newId)
    ensures var t' := Synced(src, t, rows, newId);
            a in t' && t'[a].slug != t'[b].slug && t'[a].name != t'[b].name
  {
    NameStays(src, t, rows, newId, |rows|, a);
    var i := EntityCreated(src, t, rows, newId, |rows|, b);
    BySlugIs(t, a);
    assert rows[..|rows|] == rows;
    UnmatchedName(t, rows, rows[i].slug, |rows|, i);
  }

  lemma {:induction false} UnmatchedName(t: Table, rows: seq<SourceRow>, slug: string, k: nat, i: nat)
    requires i < k <= |rows| && rows[i].slug == slug && NameMatch(t, rows[..k], slug).None?
    ensures ByName(t, rows[i].name).None?
    decreases k
  {
    NameMatchStep(t, rows, slug, k);
    if i < k - 1 {
      UnmatchedName(t, rows, slug, k - 1, i);
    }
  }

  /** When a sync goes through, in terms of the table and the rows. */
  lemma {:induction false} AcceptedExactly(src: Source, t: Table, rows: seq<SourceRow>, newId: string -> int)
    requires Unique(t) && FreshIds(t, newId)
    ensures Accepted(src, t, rows, newId) <==>
            && (forall i :: 0 <= i < |rows| ==> src.valid(rows[i].attrs))
            && (forall i :: LastOf(rows, i) ==>
                  OnBucketBefore(src, t, Target(t, rows, newId, rows[i].slug))
                  || src.download(rows[i].slug, rows[i].imageUrl) != Broken)
            && (forall i, id :: AsksParent(t, rows, newId, i, id) ==>
                  rows[i].parentSlug.value != "" && rows[i].parentSlug.value in src.modes)
            && (forall i, j :: Creates(t, rows, i) && Creates(t, rows, j) && rows[i].name == rows[j].name ==> i == j)
  {
    ImagesOkExactly(src, t, rows, newId);
    ParentsFoundExactly(src, t, rows, newId);
    UniqueExactly(src, t, rows, newId);
  }

  // ---- the sync on the stored table ----

  /** The matches after the slug lookup and the first `k` rows' names. */
  ghost function FoundUpTo(t: Table, rows: seq<SourceRow>, k: nat, slug: string): Option<int>
    requires k <= |rows|
  {
    if BySlug(t, slug).Some? then BySlug(t, slug) else NameMatch(t, rows[..k], slug)
  }

  ghost predicate Holds(existing: map<string, int>, slugs: set<string>, found: string -> Option<int>) {
    && (forall s :: s in existing <==> s in slugs && found(s).Some?)
    && (forall s :: s in existing ==> found(s) == Some(existing[s]))
  }

  lemma {:induction false} FoundStep(t: Table, rows: seq<SourceRow>, k: nat, slug: string)
    requires k < |rows|
    ensures FoundUpTo(t, rows, k + 1, slug) ==
            if FoundUpTo(t, rows, k, slug).Some? then FoundUpTo(t, rows, k, slug)
            else if rows[k].slug == slug then ByName(t, rows[k].name) else None
  {
    NameMatchStep(t, rows, slug, k + 1);
  }

  lemma {:induction false} HoldsStep(existing: map<string, int>, slugs: set<string>, before: string -> Option<int>,
                                     after: string -> Option<int>, slug: string, found: Option<int>)
    requires Holds(existing, slugs, before) && slug in slugs
    requires forall s :: after(s) == if before(s).Some? then before(s) else if slug == s then found else None
    ensures Holds(if slug !in existing && found.Some? then existing[slug := found.value] else existing, slugs, after)
  {
  }

  lemma {:induction false} FoundHolds(existing: map<string, int>, slugs: set<string>, t: Table, rows: seq<SourceRow>,
                                      k: nat)
    requires k < |rows| && rows[k].slug in slugs && Holds(existing, slugs, s => FoundUpTo(t, rows, k, s))
    ensures var slug, found := rows[k].slug, ByName(t, rows[k].name);
            Holds(if slug !in existing && found.Some? then existing[slug := found.value] else existing, slugs,
                  s => FoundUpTo(t, rows, k + 1, s))
  {
    forall s ensures FoundUpTo(t, rows, k + 1, s) ==
                     if FoundUpTo(t, rows, k, s).Some? then FoundUpTo(t, rows, k, s)
                     else if rows[k].slug == s then ByName(t, rows[k].name) else None
    {
      FoundStep(t, rows, k, s);
    }
    HoldsStep(existing, slugs, s => FoundUpTo(t, rows, k, s), s => FoundUpTo(t, rows, k + 1, s), rows[k].slug,
              ByName(t, rows[k].name));
  }

  class Catalog {
    var table: Table

    static method LookUpSlugs(t: Table, slugs: set<string>) returns (r: map<string, int>)
      requires Unique(t)
      ensures Holds(r, slugs, s => BySlug(t, s))
    {
      r := map i | i in t && t[i].slug in slugs :: t[i].slug := i;
      forall i | i in t ensures BySlug(t, t[i].slug) == Some(i) {
        BySlugIs(t, i);
      }
    }

    static method LookUpNames(t: Table, names: set<string>) returns (r: map<string, int>)
      requires Unique(t)
      ensures Holds(r, names, n => ByName(t, n))
    {
      r := map i | i in t && t[i].name in names :: t[i].name := i;
      forall i | i in t ensures ByName(t, t[i].name) == Some(i) {
        BySlugIs(t, i);
      }
    }

    /** The lookups by slug and by name, and the rows they match. */
    static method FindExisting(t: Table, rows: seq<SourceRow>) returns (existing: map<string, int>)
      requires Unique(t)
      ensures Holds(existing, set r | r in rows :: r.slug, s => Matched(t, rows, s))
    {
      var slugs, names := set r | r in rows :: r.slug, set r | r in rows :: r.name;
      existing := LookUpSlugs(t, slugs);
      var byName := LookUpNames(t, names);
      for k := 0 to |rows|
        invariant Holds(existing, slugs, s => FoundUpTo(t, rows, k, s))
      {
        assert rows[k] in rows;
        FoundHolds(existing, slugs, t, rows, k);
        if rows[k].slug !in existing && rows[k].name in byName {
          existing := existing[rows[k].slug := byName[rows[k].name]];
        }
      }
      assert rows[..|rows|] == rows;
    }

    /** One image for each slug; a repeated slug takes its last row's address. */
    static method ResolveMany(src: Source, t: Table, rows: seq<SourceRow>, existing: map<string, int>)
      returns (images: Result<map<string, Option<string>>>)
      requires Holds(existing, set r | r in rows :: r.slug, s => Matched(t, rows, s))
      ensures images.Success? <==> ImagesOk(src, t, rows)
      ensures images.Success? ==> Gives(images.value, rows, s => NewImage(src, t, rows, s))
    {
      var urls: map<string, Option<string>> := map[];
      for i := 0 to |rows|
        invariant forall j :: 0 <= j < i ==> ResolvedImage(src, t, rows, rows[j].slug).Success?
        invariant forall j :: 0 <= j < i ==> rows[j].slug in urls
        invariant forall s :: s in urls ==> urls[s] == NewImage(src, t, rows, s)
      {
        var slug := rows[i].slug;
        MatchedIn(t, rows, slug);
        assert rows[i] in rows;
        var current := if slug in existing then t[existing[slug]].image else None;
        assert current == CurrentImage(t, rows, slug);
        var url := Resolve(src, current, slug, ImageUrl(rows, slug));
        if url.Failure? {
          return Failure(url.reason);
        }
        urls := urls[slug := url.value];
      }
      images := Success(urls);
    }

    predicate AttrsValid(src: Source, rows: seq<SourceRow>) {
      forall i :: 0 <= i < |rows| ==> src.valid(rows[i].attrs)
    }

    /** How many rows were created; every failure leaves the table as it was. */
    method ApplySource(src: Source, rows: seq<SourceRow>, newId: string -> int) returns (r: Result<nat>)
      requires Unique(table) && FreshIds(table, newId)
      modifies this`table
      ensures r.Success? <==> Accepted(src, old(table), rows, newId)
      ensures table == if r.Success? then Synced(src, old(table), rows, newId) else old(table)
      ensures r.Success? ==> |table| == |old(table)| + r.value
    {
      if !AttrsValid(src, rows) {
        return Failure("invalid attributes");
      }
      var existing := FindExisting(table, rows);
      var images := ResolveMany(src, table, rows, existing);
      if images.Failure? {
        return Failure(images.reason);
      }
      WrittenIsSynced(src, table, rows, newId, existing, images.value);
      var pending, created := WriteRows(src, table, rows, newId, existing, images.value);
      if pending.Failure? {
        return Failure(pending.reason);
      }
      if !IsUnique(pending.value) {
        return Failure("duplicate key value violates unique constraint");
      }
      table := pending.value;
      r := Success(created);
    }

    /** One row: a new entity if its slug has none yet, then the update; fails on a parent that is not there. */
    static method WriteRow(src: Source, row: SourceRow, newId: string -> int, image: Option<string>, t: Table,
                           found: map<string, int>, before: nat)
      returns (ok: bool, pending: Table, existing: map<string, int>, created: nat)
      ensures ok <==> ParentFound(src, t, row, IdIn(found, newId, row.slug))
      ensures ok ==>
        Progress(pending, existing, created) == WriteOne(src, Progress(t, found, before), row, newId, image)
    {
      pending, existing, created := t, found, before;
      if row.slug !in existing {
        existing := existing[row.slug := newId(row.slug)];
        created := created + 1;
      }
      var id := existing[row.slug];
      ok := ParentFound(src, pending, row, id);
      if ok {
        assert found[row.slug := id] == existing;
        pending := NextTable(src, pending, row, id, image);
      }
    }

    /** The loop over the rows, on the entities that are not yet flushed. */
    static method WriteRows(src: Source, t: Table, rows: seq<SourceRow>, newId: string -> int, found: map<string, int>,
                            images: map<string, Option<string>>) returns (r: Result<Table>, created: nat)
      requires forall i :: 0 <= i < |rows| ==> rows[i].slug in images
      ensures r.Success? <==> forall k :: 0 <= k < |rows| ==> ParentFoundIn(src, t, rows, newId, found, images, k)
      ensures r.Success? ==>
        var last := Written(src, t, rows, newId, found, images, |rows|);
        r.value == last.pending && created == last.created
    {
      var existing, pending := found, t;
      created := 0;
      for k := 0 to |rows|
        invariant Progress(pending, existing, created) == Written(src, t, rows, newId, found, images, k)
        invariant forall j :: 0 <= j < k ==> ParentFoundIn(src, t, rows, newId, found, images, j)
      {
        WrittenStep(src, t, rows, newId, found, images, k, Progress(pending, existing, created));
        var ok;
        ok, pending, existing, created := WriteRow(src, rows[k], newId, images[rows[k].slug], pending, existing,
          created);
        if !ok {
          return Failure("unknown parent"), created;
        }
      }
      r := Success(pending);
    }
  }

  // ---- the loop computes the sync ----

  datatype Progress = Progress(pending: Table, existing: map<string, int>, created: nat)

  function IdIn(existing: map<string, int>, newId: string -> int, slug: string): int {
    if slug in existing then existing[slug] else newId(slug)
  }

  function WriteOne(src: Source, before: Progress, row: SourceRow, newId: string -> int,
                    image: Option<string>): Progress {
    var id := IdIn(before.existing, newId, row.slug);
    Progress(NextTable(src, before.pending, row, id, image), before.existing[row.slug := id],
             before.created + if row.slug in before.existing then 0 else 1)
  }

  /** The loop's variables after `k` rows. */
  function Written(src: Source, t: Table, rows: seq<SourceRow>, newId: string -> int, found: map<string, int>,
                   images: map<string, Option<string>>, k: nat): Progress
    requires k <= |rows| && forall i :: 0 <= i < |rows| ==> rows[i].slug in images
  {
    if k == 0 then Progress(t, found, 0)
    else
      WriteOne(src, Written(src, t, rows, newId, found, images, k - 1), rows[k - 1], newId, images[rows[k - 1].slug])
  }

  lemma {:induction false} WrittenStep(src: Source, t: Table, rows: seq<SourceRow>, newId: string -> int,
                                       found: map<string, int>, images: map<string, Option<string>>, k: nat,
                                       now: Progress)
    requires k < |rows| && forall i :: 0 <= i < |rows| ==> rows[i].slug in images
    requires now == Written(src, t, rows, newId, found, images, k)
    ensures Written(src, t, rows, newId, found, images, k + 1) ==
            WriteOne(src, now, rows[k], newId, images[rows[k].slug])
    ensures ParentFoundIn(src, t, rows, newId, found, images, k) <==>
            ParentFound(src, now.pending, rows[k], IdIn(now.existing, newId, rows[k].slug))
  {
  }

  predicate ParentFoundIn(src: Source, t: Table, rows: seq<SourceRow>, newId: string -> int, found: map<string, int>,
                          images: map<string, Option<string>>, k: nat)
    requires k < |rows| && forall i :: 0 <= i < |rows| ==> rows[i].slug in images
  {
    var before := Written(src, t, rows, newId, found, images, k);
    ParentFound(src, before.pending, rows[k], IdIn(before.existing, newId, rows[k].slug))
  }

  /** The images that the loop is given. */
  ghost predicate Gives(images: map<string, Option<string>>, rows: seq<SourceRow>, image: string -> Option<string>) {
    forall i :: 0 <= i < |rows| ==> rows[i].slug in images && images[rows[i].slug] == image(rows[i].slug)
  }

  /** Where the slugs lead: to an entity found in the table, or to a new id of their own. */
  ghost predicate Leads(target: string -> int, slugs: set<string>, found: map<string, int>, t: Table,
                        newId: string -> int) {
    && FreshIds(t, newId)
    && (forall s :: s in found ==> s in slugs && found[s] == target(s) && target(s) in t)
    && (forall s :: s in slugs && s !in found ==> target(s) == newId(s))
  }

  /** A slug is in the running map exactly when its entity is in the table. */
  ghost predicate Tracked(target: string -> int, slugs: set<string>, found: map<string, int>, now: Progress) {
    && (forall s :: s in found ==> s in now.existing)
    && (forall s :: s in now.existing ==> now.existing[s] == target(s))
    && (forall s :: s in slugs ==> (s in now.existing <==> target(s) in now.pending))
  }

  lemma {:induction false} LeadsToTargets(t: Table, rows: seq<SourceRow>, newId: string -> int, found: map<string, int>)
    requires FreshIds(t, newId)
    requires Holds(found, set r | r in rows :: r.slug, s => Matched(t, rows, s))
    ensures Leads(s => Target(t, rows, newId, s), set r | r in rows :: r.slug, found, t, newId)
  {
    var slugs := set r | r in rows :: r.slug;
    forall s | s in found
      ensures s in slugs && found[s] == Target(t, rows, newId, s) && found[s] in t
    {
      MatchedIn(t, rows, s);
    }
  }

  lemma {:induction false} TrackedNext(target: string -> int, slugs: set<string>, found: map<string, int>, t: Table,
                                       newId: string -> int, before: Progress, slug: string, e: Entity)
    requires Leads(target, slugs, found, t, newId) && Tracked(target, slugs, found, before) && slug in slugs
    ensures var id := IdIn(before.existing, newId, slug);
            var created := before.created + if slug in before.existing then 0 else 1;
            && id == target(slug)
            && Tracked(target, slugs, found, Progress(before.pending[id := e], before.existing[slug := id], created))
            && |before.pending[id := e]| == |before.pending| + created - before.created
  {
    forall s | s in slugs && s != slug && target(s) == target(slug)
      ensures s in before.existing
    {
      assert s in found;
    }
  }

  lemma {:induction false} WriteOneTracks(src: Source, target: string -> int, slugs: set<string>,
                                          found: map<string, int>, t: Table, newId: string -> int, before: Progress,
                                          row: SourceRow, image: Option<string>)
    requires Leads(target, slugs, found, t, newId) && Tracked(target, slugs, found, before) && row.slug in slugs
    ensures var now := WriteOne(src, before, row, newId, image);
            && now.pending == NextTable(src, before.pending, row, target(row.slug), image)
            && Tracked(target, slugs, found, now)
            && |now.pending| - now.created == |before.pending| - before.created
  {
    var id := IdIn(before.existing, newId, row.slug);
    TrackedNext(target, slugs, found, t, newId, before, row.slug,
      Updated(src, Current(before.pending, row, id), row, image));
  }

  /** The sync's tables, for any targets and images. */
  ghost function Folded(src: Source, t: Table, rows: seq<SourceRow>, target: string -> int,
                        image: string -> Option<string>, k: nat): Table
    requires k <= |rows|
  {
    if k == 0 then t
    else
      var row := rows[k - 1];
      NextTable(src, Folded(src, t, rows, target, image, k - 1), row, target(row.slug), image(row.slug))
  }

  lemma {:induction false} UpsertedIsFolded(src: Source, t: Table, rows: seq<SourceRow>, newId: string -> int, k: nat)
    requires k <= |rows|
    ensures Upserted(src, t, rows, newId, k) ==
            Folded(src, t, rows, s => Target(t, rows, newId, s), s => NewImage(src, t, rows, s), k)
  {
    if k > 0 {
      UpsertedIsFolded(src, t, rows, newId, k - 1);
    }
  }

  ghost predicate KeptBy(src: Source, newId: string -> int, images: map<string, Option<string>>, rows: seq<SourceRow>,
                         kept: Progress -> bool, before: Progress, row: SourceRow) {
    kept(before) && row in rows && row.slug in images ==> kept(WriteOne(src, before, row, newId, images[row.slug]))
  }

  /** What one row keeps, the loop keeps. */
  lemma {:induction false} WrittenKeeps(src: Source, t: Table, rows: seq<SourceRow>, newId: string -> int,
                                        found: map<string, int>, images: map<string, Option<string>>,
                                        kept: Progress -> bool, k: nat)
    requires k <= |rows| && kept(Progress(t, found, 0))
    requires forall i :: 0 <= i < |rows| ==> rows[i].slug in images
    requires forall before, row :: KeptBy(src, newId, images, rows, kept, before, row)
    ensures kept(Written(src, t, rows, newId, found, images, k))
  {
    if k > 0 {
      WrittenKeeps(src, t, rows, newId, found, images, kept, k - 1);
      assert rows[k - 1] in rows;
      assert KeptBy(src, newId, images, rows, kept, Written(src, t, rows, newId, found, images, k - 1), rows[k - 1]);
    }
  }

  lemma {:induction false} WrittenTracks(src: Source, t: Table, rows: seq<SourceRow>, newId: string -> int,
                                         found: map<string, int>, images: map<string, Option<string>>,
                                         target: string -> int, slugs: set<string>, k: nat)
    requires k <= |rows| && Leads(target, slugs, found, t, newId)
    requires forall i :: 0 <= i < |rows| ==> rows[i].slug in images && rows[i].slug in slugs
    ensures var now := Written(src, t, rows, newId, found, images, k);
            Tracked(target, slugs, found, now) && |now.pending| == |t| + now.created
  {
    var kept := (p: Progress) => Tracked(target, slugs, found, p) && |p.pending| == |t| + p.created;
    forall before, row
      ensures KeptBy(src, newId, images, rows, kept, before, row)
    {
      if kept(before) && row in rows {
        WriteOneTracks(src, target, slugs, found, t, newId, before, row, images[row.slug]);
      }
    }
    WrittenKeeps(src, t, rows, newId, found, images, kept, k);
  }

  lemma {:induction false} FoldedStep(src: Source, t: Table, rows: seq<SourceRow>, target: string -> int,
                                      image: string -> Option<string>, k: nat)
    requires k < |rows|
    ensures Folded(src, t, rows, target, image, k + 1) ==
            NextTable(src, Folded(src, t, rows, target, image, k), rows[k], target(rows[k].slug), image(rows[k].slug))
  {
  }

  lemma {:induction false} WrittenIsFolded(src: Source, t: Table, rows: seq<SourceRow>, newId: string -> int,
                                           found: map<string, int>, images: map<string, Option<string>>,
                                           target: string -> int, image: string -> Option<string>, slugs: set<string>,
                                           k: nat)
    requires k <= |rows| && Leads(target, slugs, found, t, newId) && Gives(images, rows, image)
    requires forall i :: 0 <= i < |rows| ==> rows[i].slug in slugs
    ensures Written(src, t, rows, newId, found, images, k).pending == Folded(src, t, rows, target, image, k)
  {
    if k > 0 {
      var row, now := rows[k - 1], Written(src, t, rows, newId, found, images, k - 1);
      WrittenIsFolded(src, t, rows, newId, found, images, target, image, slugs, k - 1);
      WrittenTracks(src, t, rows, newId, found, images, target, slugs, k - 1);
      WriteOneTracks(src, target, slugs, found, t, newId, now, row, image(row.slug));
      WrittenStep(src, t, rows, newId, found, images, k - 1, now);
      FoldedStep(src, t, rows, target, image, k - 1);
    }
  }

  /** The loop's table is the sync's, row by row. */
  lemma {:induction false} WrittenIsUpserted(src: Source, t: Table, rows: seq<SourceRow>, newId: string -> int,
                                             found: map<string, int>, images: map<string, Option<string>>, k: nat)
    requires k <= |rows|
    requires Leads(s => Target(t, rows, newId, s), set r | r in rows :: r.slug, found, t, newId)
    requires Gives(images, rows, s => NewImage(src, t, rows, s))
    ensures var now := Written(src, t, rows, newId, found, images, k);
            && now.pending == Upserted(src, t, rows, newId, k) && |now.pending| == |t| + now.created
            && Tracked(s => Target(t, rows, newId, s), set r | r in rows :: r.slug, found, now)
  {
    UpsertedIsFolded(src, t, rows, newId, k);
    assert forall i :: 0 <= i < |rows| ==> rows[i] in rows;
    WrittenTracks(src, t, rows, newId, found, images, s => Target(t, rows, newId, s), set r | r in rows :: r.slug, k);
    WrittenIsFolded(src, t, rows, newId, found, images, s => Target(t, rows, newId, s), s => NewImage(src, t, rows, s),
                    set r | r in rows :: r.slug, k);
  }

  lemma {:induction false} SameParents(src: Source, t: Table, rows: seq<SourceRow>, newId: string -> int,
                                       found: map<string, int>, images: map<string, Option<string>>, k: nat)
    requires k < |rows|
    requires Leads(s => Target(t, rows, newId, s), set r | r in rows :: r.slug, found, t, newId)
    requires Gives(images, rows, s => NewImage(src, t, rows, s))
    ensures ParentFoundIn(src, t, rows, newId, found, images, k) <==> ParentFoundAt(src, t, rows, newId, k)
  {
    var now := Written(src, t, rows, newId, found, images, k);
    WrittenIsUpserted(src, t, rows, newId, found, images, k);
    assert rows[k] in rows;
    TrackedNext(s => Target(t, rows, newId, s), set r | r in rows :: r.slug, found, t, newId, now, rows[k].slug,
                Created(rows[k]));
  }

  lemma {:induction false} WrittenIsSynced(src: Source, t: Table, rows: seq<SourceRow>, newId: string -> int,
                                           found: map<string, int>, images: map<string, Option<string>>)
    requires FreshIds(t, newId)
    requires Holds(found, set r | r in rows :: r.slug, s => Matched(t, rows, s))
    requires Gives(images, rows, s => NewImage(src, t, rows, s))
    ensures var last := Written(src, t, rows, newId, found, images, |rows|);
            && last.pending == Synced(src, t, rows, newId) && |last.pending| == |t| + last.created
            && (ParentsFound(src, t, rows, newId) <==>
                  forall k :: 0 <= k < |rows| ==> ParentFoundIn(src, t, rows, newId, found, images, k))
  {
    LeadsToTargets(t, rows, newId, found);
    WrittenIsUpserted(src, t, rows, newId, found, images, |rows|);
    forall k | 0 <= k < |rows|
      ensures ParentFoundIn(src, t, rows, newId, found, images, k) <==> ParentFoundAt(src, t, rows, newId, k)
    {
      SameParents(src, t, rows, newId, found, images, k);
    }
  }

  predicate IsUnique(t: Table)
    ensures IsUnique(t) <==> Unique(t)
  {
    forall a, b :: a in t && b in t && (t[a].slug == t[b].slug || t[a].name == t[b].name) ==> a == b
  }
}
