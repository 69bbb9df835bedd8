/**
 * The deliverable mirror every page keeps in memory: three category buckets of
 * item records (`items.photos`, `items.shortVideos`, `items.longVideos`), and the
 * handful of operations all pages apply to it — the full-refresh load that
 * partitions fetched rows by category, append, filter-out-by-id, and the
 * find-and-set of `isApproved` / `comment` on the row with a given id.
 */
module Mirror {
  import opened Wrappers

  // ---------------------------------------------------------------------------
  // Categories, rows and items
  // ---------------------------------------------------------------------------

  datatype Category = Photos | ShortVideos | LongVideos

  /** The order every page walks the buckets in. */
  const AllCategories: seq<Category> := [Photos, ShortVideos, LongVideos]

  /** The bucket's key in `items`, and the `category` column value that selects it. */
  function Key(c: Category): string {
    match c
    case Photos => "photos"
    case ShortVideos => "shortVideos"
    case LongVideos => "longVideos"
  }

  /** The bucket a `category` column value names, if any. */
  function ParseCategory(s: string): (r: Option<Category>)
    ensures r.Some? ==> Key(r.value) == s
    ensures r.None? ==> forall c: Category :: Key(c) != s
  {
    if s == "photos" then Some(Photos)
    else if s == "shortVideos" then Some(ShortVideos)
    else if s == "longVideos" then Some(LongVideos)
    else None
  }

  /** A row of the `client_deliverables` table, in its column names. */
  datatype Row = Row(
    id: int,
    category: string,
    title: string,
    url: string,
    status: string,
    duration: Option<string>,
    progress: Option<int>,
    comment: Option<string>,
    isApproved: bool,
    createdAt: string)

  /** An entry of a bucket, in the client's field names. */
  datatype Item = Item(
    id: int,
    title: string,
    url: string,
    status: string,
    duration: Option<string>,
    progress: Option<int>,
    comment: Option<string>,
    isApproved: bool,
    timestamp: string)

  /** The client-side record a fetched row becomes (`is_approved`, `created_at` renamed). */
  function Format(r: Row): Item {
    Item(r.id, r.title, r.url, r.status, r.duration, r.progress, r.comment, r.isApproved, r.createdAt)
  }

  // ---------------------------------------------------------------------------
  // The three buckets as a value
  // ---------------------------------------------------------------------------

  datatype Buckets = Buckets(photos: seq<Item>, shortVideos: seq<Item>, longVideos: seq<Item>)
  {
    function Get(c: Category): seq<Item> {
      match c
      case Photos => photos
      case ShortVideos => shortVideos
      case LongVideos => longVideos
    }

    /** These buckets with bucket `c` replaced by `s`; the other two untouched. */
    function With(c: Category, s: seq<Item>): (b: Buckets)
      ensures b.Get(c) == s
      ensures forall d: Category :: d != c ==> b.Get(d) == Get(d)
    {
      match c
      case Photos => this.(photos := s)
      case ShortVideos => this.(shortVideos := s)
      case LongVideos => this.(longVideos := s)
    }

    /** `items[c].push(it)`. */
    function Push(c: Category, it: Item): Buckets {
      With(c, Get(c) + [it])
    }

    function Size(): nat {
      |photos| + |shortVideos| + |longVideos|
    }
  }

  const Empty := Buckets([], [], [])

  // ---------------------------------------------------------------------------
  // Load: partition fetched rows by category, in input order
  // ---------------------------------------------------------------------------

  /** The items the rows of category `c` become, in input order. */
  function Select(rows: seq<Row>, c: Category): (r: seq<Item>)
    ensures |r| <= |rows|
  {
    if rows == [] then []
    else
      var last := rows[|rows| - 1];
      Select(rows[..|rows| - 1], c) + (if last.category == Key(c) then [Format(last)] else [])
  }

  /** What a successful load leaves in the buckets. */
  function Partition(rows: seq<Row>): Buckets {
    Buckets(Select(rows, Photos), Select(rows, ShortVideos), Select(rows, LongVideos))
  }

  /** Selection respects concatenation: rows keep their input order inside a bucket. */
  lemma {:induction false} SelectAppend(a: seq<Row>, b: seq<Row>, c: Category)
    ensures Select(a + b, c) == Select(a, c) + Select(b, c)
    decreases |b|
  {
    if b == [] {
      assert a + b == a;
    } else {
      var b' := b[..|b| - 1];
      assert (a + b)[..|a + b| - 1] == a + b';
      SelectAppend(a, b', c);
    }
  }

  /** An item is in bucket `c` exactly when some row of category `c` formats to it. */
  lemma {:induction false} SelectMembers(rows: seq<Row>, c: Category, it: Item)
    ensures it in Select(rows, c) <==> exists i :: 0 <= i < |rows| && rows[i].category == Key(c) && Format(rows[i]) == it
  {
    if rows != [] {
      var init := rows[..|rows| - 1];
      SelectMembers(init, c, it);
      if it in Select(rows, c) && it !in Select(init, c) {
        assert Format(rows[|rows| - 1]) == it;
      }
      if exists i :: 0 <= i < |init| && init[i].category == Key(c) && Format(init[i]) == it {
        var i :| 0 <= i < |init| && init[i].category == Key(c) && Format(init[i]) == it;
        assert rows[i] == init[i];
      }
      if exists i :: 0 <= i < |rows| && rows[i].category == Key(c) && Format(rows[i]) == it {
        var i :| 0 <= i < |rows| && rows[i].category == Key(c) && Format(rows[i]) == it;
        if i < |init| {
          assert init[i] == rows[i];
        }
      }
    }
  }

  /** Loading one more row pushes it onto its own bucket, or drops it when its category is unknown. */
  lemma PartitionSnoc(rows: seq<Row>, r: Row)
    ensures ParseCategory(r.category).Some? ==>
      Partition(rows + [r]) == Partition(rows).Push(ParseCategory(r.category).value, Format(r))
    ensures ParseCategory(r.category).None? ==> Partition(rows + [r]) == Partition(rows)
  {
    assert (rows + [r])[..|rows + [r]| - 1] == rows;
  }

  /** The rows of unknown category, which a load drops. */
  function CountUnknown(rows: seq<Row>): nat {
    if rows == [] then 0
    else CountUnknown(rows[..|rows| - 1]) + (if ParseCategory(rows[|rows| - 1].category).None? then 1 else 0)
  }

  /** Every fetched row lands in exactly one bucket or is dropped: nothing is duplicated or lost. */
  lemma {:induction false} PartitionCounts(rows: seq<Row>)
    ensures Partition(rows).Size() + CountUnknown(rows) == |rows|
  {
    if rows != [] {
      PartitionCounts(rows[..|rows| - 1]);
    }
  }

  // ---------------------------------------------------------------------------
  // Find-and-set: `items[cat].find(i => i.id === id)` then one field assigned
  // ---------------------------------------------------------------------------

  datatype Patch = SetApproved(approved: bool) | SetComment(text: string) | SetReview(text: string, approved: bool)

  /** The field assignment(s) a patch performs on the found item. */
  function Apply(p: Patch, it: Item): Item {
    match p
    case SetApproved(b) => it.(isApproved := b)
    case SetComment(t) => it.(comment := Some(t))
    case SetReview(t, b) => it.(comment := Some(t), isApproved := b)
  }

  /** `Array.prototype.findIndex` on ids: the first position holding `id`, if any. */
  function FirstIndex(s: seq<Item>, id: int): (r: Option<nat>)
    ensures r.Some? ==> r.value < |s| && s[r.value].id == id
    ensures r.Some? ==> forall j :: 0 <= j < r.value ==> s[j].id != id
    ensures r.None? <==> forall j :: 0 <= j < |s| ==> s[j].id != id
  {
    if s == [] then None
    else if s[0].id == id then Some(0)
    else match FirstIndex(s[1..], id)
      case None => None
      case Some(k) => Some(k + 1)
  }

  /** `s.find(i => i.id === id)`. */
  function FindItem(s: seq<Item>, id: int): Option<Item> {
    match FirstIndex(s, id)
    case None => None
    case Some(k) => Some(s[k])
  }

  /** The bucket after the first item with `id`, if there is one, is patched in place. */
  function PatchFirst(s: seq<Item>, id: int, p: Patch): seq<Item> {
    if s == [] then []
    else if s[0].id == id then [Apply(p, s[0])] + s[1..]
    else [s[0]] + PatchFirst(s[1..], id, p)
  }

  /** `PatchFirst` is an update at the position `FirstIndex` finds, and nothing else. */
  lemma {:induction false} PatchFirstAtFirstIndex(s: seq<Item>, id: int, p: Patch)
    ensures FirstIndex(s, id).None? ==> PatchFirst(s, id, p) == s
    ensures FirstIndex(s, id).Some? ==>
      PatchFirst(s, id, p) == s[FirstIndex(s, id).value := Apply(p, s[FirstIndex(s, id).value])]
  {
    if s != [] && s[0].id != id {
      PatchFirstAtFirstIndex(s[1..], id, p);
      assert s == [s[0]] + s[1..];
    }
  }

  /** The three-bucket `forEach` of the approval and comment handlers. */
  function PatchAll(b: Buckets, id: int, p: Patch): Buckets {
    Buckets(PatchFirst(b.photos, id, p), PatchFirst(b.shortVideos, id, p), PatchFirst(b.longVideos, id, p))
  }

  /** No id occurs twice in a bucket. */
  predicate UniqueIds(s: seq<Item>) {
    forall i, j :: 0 <= i < j < |s| ==> s[i].id != s[j].id
  }

  /**
   * What a patch does to one bucket: items with another id are untouched, the
   * length is kept, and when ids are unique every item with `id` is patched.
   */
  lemma PatchFirstEffect(s: seq<Item>, id: int, p: Patch)
    ensures |PatchFirst(s, id, p)| == |s|
    ensures forall j :: 0 <= j < |s| && s[j].id != id ==> PatchFirst(s, id, p)[j] == s[j]
    ensures UniqueIds(s) ==>
      forall j :: 0 <= j < |s| && s[j].id == id ==> PatchFirst(s, id, p)[j] == Apply(p, s[j])
  {
    PatchFirstAtFirstIndex(s, id, p);
  }

  /**
   * What the three-bucket find-and-set does: every bucket keeps its length,
   * items with another id are untouched, and when ids are unique within a
   * bucket, every item carrying `id` in any bucket receives the patch.
   */
  lemma PatchAllEffect(b: Buckets, id: int, p: Patch)
    ensures forall c: Category :: |PatchAll(b, id, p).Get(c)| == |b.Get(c)|
    ensures forall c: Category, j :: 0 <= j < |b.Get(c)| && b.Get(c)[j].id != id ==>
      PatchAll(b, id, p).Get(c)[j] == b.Get(c)[j]
    ensures forall c: Category, j :: 0 <= j < |b.Get(c)| && b.Get(c)[j].id == id && UniqueIds(b.Get(c)) ==>
      PatchAll(b, id, p).Get(c)[j] == Apply(p, b.Get(c)[j])
  {
    PatchFirstEffect(b.photos, id, p);
    PatchFirstEffect(b.shortVideos, id, p);
    PatchFirstEffect(b.longVideos, id, p);
    forall c: Category
      ensures PatchAll(b, id, p).Get(c) == PatchFirst(b.Get(c), id, p)
    {
    }
  }

  /** Patching twice with the same kind of patch keeps only the last value (the later save wins). */
  lemma {:induction false} LastPatchWins(s: seq<Item>, id: int, p: Patch, q: Patch)
    requires p.SetApproved? == q.SetApproved? && p.SetComment? == q.SetComment?
    ensures PatchFirst(PatchFirst(s, id, p), id, q) == PatchFirst(s, id, q)
  {
    if s != [] && s[0].id != id {
      LastPatchWins(s[1..], id, p, q);
      assert PatchFirst(s, id, p)[1..] == PatchFirst(s[1..], id, p);
    } else if s != [] {
      assert (PatchFirst(s, id, p))[1..] == s[1..];
    }
  }

  // ---------------------------------------------------------------------------
  // Filter-out-by-id: `items[c] = items[c].filter(i => i.id !== id)`
  // ---------------------------------------------------------------------------

  /**
   * The bucket without the items carrying `id`: exactly the items with another
   * id survive, and a bucket without `id` is returned as it was.
   */
  function WithoutId(s: seq<Item>, id: int): (r: seq<Item>)
    ensures |r| <= |s|
    ensures forall it :: it in r <==> it in s && it.id != id
    ensures (forall j :: 0 <= j < |s| ==> s[j].id != id) ==> r == s
  {
    if s == [] then []
    else if s[0].id == id then WithoutId(s[1..], id)
    else
      assert s == [s[0]] + s[1..];
      [s[0]] + WithoutId(s[1..], id)
  }

  /** Filtering works item by item, so the survivors keep their relative order. */
  lemma {:induction false} WithoutIdAppend(a: seq<Item>, b: seq<Item>, id: int)
    ensures WithoutId(a + b, id) == WithoutId(a, id) + WithoutId(b, id)
  {
    if a == [] {
      assert a + b == b;
    } else {
      assert (a + b)[0] == a[0];
      assert (a + b)[1..] == a[1..] + b;
      WithoutIdAppend(a[1..], b, id);
    }
  }

  /** The table after `delete().eq("id", id)`: the rows with another id, in order. */
  function RemoveRows(rows: seq<Row>, id: int): seq<Row> {
    if rows == [] then []
    else
      var last := rows[|rows| - 1];
      RemoveRows(rows[..|rows| - 1], id) + (if last.id == id then [] else [last])
  }

  /**
   * Filtering a bucket locally gives what a reload would show after the rows
   * with that id are deleted from the table.
   */
  lemma {:induction false} RemoveAgreesWithReload(rows: seq<Row>, id: int, c: Category)
    ensures Select(RemoveRows(rows, id), c) == WithoutId(Select(rows, c), id)
  {
    if rows != [] {
      var init, last := rows[..|rows| - 1], rows[|rows| - 1];
      RemoveAgreesWithReload(init, id, c);
      var tail: seq<Item> := if last.category == Key(c) then [Format(last)] else [];
      assert Select(rows, c) == Select(init, c) + tail;
      WithoutIdAppend(Select(init, c), tail, id);
      var kept := RemoveRows(init, id);
      if last.id == id {
        assert WithoutId(tail, id) == [];
        assert RemoveRows(rows, id) == kept + [];
        assert kept + [] == kept;
      } else {
        assert WithoutId(tail, id) == tail;
        assert RemoveRows(rows, id) == kept + [last];
        assert (kept + [last])[..|kept + [last]| - 1] == kept;
      }
    }
  }

  // ---------------------------------------------------------------------------
  // Id bounds (the `itemIdCounter` invariant)
  // ---------------------------------------------------------------------------

  /** Every item of every bucket has an id at most `n`. */
  predicate IdsAtMost(b: Buckets, n: int) {
    forall c: Category, j :: 0 <= j < |b.Get(c)| ==> b.Get(c)[j].id <= n
  }

  // ---------------------------------------------------------------------------
  // The mirror object
  // ---------------------------------------------------------------------------

  /** The module-level `items` object: three arrays that the handlers update in place. */
  class Store {
    var photos: seq<Item>
    var shortVideos: seq<Item>
    var longVideos: seq<Item>

    constructor ()
      ensures Contents() == Empty
    {
      photos, shortVideos, longVideos := [], [], [];
    }

    function Contents(): Buckets
      reads this
    {
      Buckets(photos, shortVideos, longVideos)
    }

    /** `items = { ... }`: all three buckets replaced. */
    method Assign(b: Buckets)
      modifies this
      ensures Contents() == b
    {
      photos, shortVideos, longVideos := b.photos, b.shortVideos, b.longVideos;
    }

    /** `items[c] = s`. */
    method SetBucket(c: Category, s: seq<Item>)
      modifies this
      ensures Contents() == old(Contents()).With(c, s)
    {
      match c
      case Photos => photos := s;
      case ShortVideos => shortVideos := s;
      case LongVideos => longVideos := s;
    }

    /** `items[c].push(it)`. */
    method Push(c: Category, it: Item)
      modifies this
      ensures Contents() == old(Contents()).Push(c, it)
    {
      match c
      case Photos => photos := photos + [it];
      case ShortVideos => shortVideos := shortVideos + [it];
      case LongVideos => longVideos := longVideos + [it];
    }

    /**
     * The body of a successful load: the buckets reset, then each fetched row
     * pushed onto the bucket its category names (rows of any other category
     * skipped).
     */
    method LoadRows(rows: seq<Row>)
      modifies this
      ensures Contents() == Partition(rows)
    {
      Assign(Empty);
      for i := 0 to |rows|
        invariant Contents() == Partition(rows[..i])
      {
        var r := rows[i];
        assert rows[..i + 1] == rows[..i] + [r];
        PartitionSnoc(rows[..i], r);
        match ParseCategory(r.category)
        case Some(c) => Push(c, Format(r));
        case None =>
      }
      assert rows[..|rows|] == rows;
    }

    /** `s.find(i => i.id === id)` on bucket `c`. */
    method Find(c: Category, id: int) returns (r: Option<Item>)
      ensures r.Some? <==> exists j :: 0 <= j < |Contents().Get(c)| && Contents().Get(c)[j].id == id
      ensures r.Some? ==> r.value in Contents().Get(c) && r.value.id == id
      ensures r == FindItem(Contents().Get(c), id)
    {
      var s := Contents().Get(c);
      var k := FirstIndex(s, id);
      match k
      case None => r := None;
      case Some(j) => r := Some(s[j]);
    }

    /**
     * For each bucket in turn, the first item with `id` (if any) gets the patch;
     * everything else stays as it was.
     */
    method PatchEach(id: int, p: Patch)
      modifies this
      ensures Contents() == PatchAll(old(Contents()), id, p)
    {
      ghost var before := Contents();
      for i := 0 to |AllCategories|
        invariant forall j :: 0 <= j < i ==>
          Contents().Get(AllCategories[j]) == PatchFirst(before.Get(AllCategories[j]), id, p)
        invariant forall j :: i <= j < |AllCategories| ==> Contents().Get(AllCategories[j]) == before.Get(AllCategories[j])
      {
        var c := AllCategories[i];
        var s := Contents().Get(c);
        PatchFirstAtFirstIndex(s, id, p);
        match FirstIndex(s, id)
        case None =>
        case Some(k) => SetBucket(c, s[k := Apply(p, s[k])]);
      }
      assert Contents().Get(AllCategories[0]) == PatchFirst(before.photos, id, p);
      assert Contents().Get(AllCategories[1]) == PatchFirst(before.shortVideos, id, p);
      assert Contents().Get(AllCategories[2]) == PatchFirst(before.longVideos, id, p);
    }

    /** `items[c] = items[c].filter(i => i.id !== id)`. */
    method RemoveId(c: Category, id: int)
      modifies this
      ensures Contents() == old(Contents()).With(c, WithoutId(old(Contents()).Get(c), id))
    {
      var s := Contents().Get(c);
      SetBucket(c, WithoutId(s, id));
    }
  }
}
