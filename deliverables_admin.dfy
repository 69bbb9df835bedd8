/**
 * The admin side of the review page (js/deliverables-admin.js): building and
 * appending a new deliverable, the admin list, delete, edit (delete and pre-fill
 * the form), the submit guard and the report.
 */
module DeliverablesAdmin {
  import opened Wrappers
  import opened Remote
  import opened Mirror
  import opened DeliverablesCore

  // ---------------------------------------------------------------------------
  // Adding a deliverable
  // ---------------------------------------------------------------------------

  /** The add form's fields (the category comes from a select of the three buckets). */
  datatype Form = Form(category: Category, title: string, url: string, status: string, duration: string)

  /** The `newItem` object sent to the insert. */
  datatype Draft = Draft(
    title: string,
    url: string,
    status: string,
    category: string,
    duration: Option<string>,
    progress: Option<int>)

  /** `Math.floor(Math.random() * 100)`, drawn by the caller. */
  type Roll = x: int | 0 <= x < 100

  /**
   * The row to insert: a duration only for videos with a non-empty duration,
   * a progress value only for items being rendered.
   */
  function DraftOf(f: Form, roll: Roll): (d: Draft)
    ensures d.category == Key(f.category) && d.title == f.title && d.url == f.url && d.status == f.status
    ensures d.duration.Some? <==> f.category != Photos && f.duration != ""
    ensures d.duration.Some? ==> d.duration.value == f.duration
    ensures d.progress.Some? <==> f.status == "rendering"
    ensures d.progress.Some? ==> 0 <= d.progress.value < 100
  {
    Draft(f.title, f.url, f.status, Key(f.category),
      if f.category != Photos && f.duration != "" then Some(f.duration) else None,
      if f.status == "rendering" then Some(roll) else None)
  }

  /** The item pushed for the inserted row: not approved, with an empty comment. */
  function AddedItem(r: Row): Item {
    Item(r.id, r.title, r.url, r.status, r.duration, r.progress, Some(""), false, r.createdAt)
  }

  /**
   * Appending the inserted row locally gives what a reload would show, when the
   * table stored it last, under the form's category, unapproved and with an
   * empty comment.
   */
  lemma AddAgreesWithReload(rows: seq<Row>, r: Row, c: Category)
    requires r.category == Key(c) && !r.isApproved && r.comment == Some("")
    ensures Partition(rows + [r]) == Partition(rows).Push(c, AddedItem(r))
  {
    PartitionSnoc(rows, r);
  }

  /**
   * The add form's submit handler: the draft is inserted; on an error, or when
   * the insert returns no row (so `data[0]` throws), nothing changes; otherwise
   * exactly one item is appended to the form's bucket.
   */
  method AddItem(items: Store, f: Form, roll: Roll, inserted: Reply<seq<Row>>) returns (request: Draft)
    modifies items
    ensures request == DraftOf(f, roll)
    ensures inserted.Err? || inserted.data == [] ==> items.Contents() == old(items.Contents())
    ensures inserted.Ok? && inserted.data != [] ==>
      items.Contents() == old(items.Contents()).Push(f.category, AddedItem(inserted.data[0]))
  {
    request := DraftOf(f, roll);
    match inserted
    case Err =>
    case Ok(rows) =>
      if rows != [] {
        items.Push(f.category, AddedItem(rows[0]));
      }
  }

  // ---------------------------------------------------------------------------
  // The admin list
  // ---------------------------------------------------------------------------

  /** An item of the admin list, tagged with its bucket and the bucket's display name. */
  datatype AdminRow = AdminRow(item: Item, category: Category, categoryName: string)

  function CategoryName(c: Category): string {
    match c
    case Photos => "Pictures"
    case ShortVideos => "Short Videos"
    case LongVideos => "Long Videos"
  }

  function Tagged(s: seq<Item>, c: Category): (r: seq<AdminRow>)
    ensures |r| == |s|
    ensures forall i :: 0 <= i < |s| ==> r[i] == AdminRow(s[i], c, CategoryName(c))
  {
    seq(|s|, i requires 0 <= i < |s| => AdminRow(s[i], c, CategoryName(c)))
  }

  /**
   * `renderAdminItems`' `allItems`: the photos, then the short videos, then the
   * long videos, each tagged; empty (the empty state) exactly when all three
   * buckets are.
   */
  function AdminList(b: Buckets): (rows: seq<AdminRow>)
    ensures |rows| == b.Size()
    ensures rows == [] <==> b.photos == [] && b.shortVideos == [] && b.longVideos == []
    ensures forall i :: 0 <= i < |b.photos| ==> rows[i] == AdminRow(b.photos[i], Photos, "Pictures")
    ensures forall i :: 0 <= i < |b.shortVideos| ==>
      rows[|b.photos| + i] == AdminRow(b.shortVideos[i], ShortVideos, "Short Videos")
    ensures forall i :: 0 <= i < |b.longVideos| ==>
      rows[|b.photos| + |b.shortVideos| + i] == AdminRow(b.longVideos[i], LongVideos, "Long Videos")
  {
    Tagged(b.photos, Photos) + Tagged(b.shortVideos, ShortVideos) + Tagged(b.longVideos, LongVideos)
  }

  lemma TaggedMembers(s: seq<Item>, c: Category, r: AdminRow)
    requires r in Tagged(s, c)
    ensures r.item in s && r.category == c && r.categoryName == CategoryName(c)
  {
    var k :| 0 <= k < |s| && Tagged(s, c)[k] == r;
  }

  /** Every admin row names the bucket its item sits in, so its Edit and Delete buttons act on that bucket. */
  lemma AdminRowsPointHome(b: Buckets)
    ensures forall r :: r in AdminList(b) ==> r.item in b.Get(r.category) && r.categoryName == CategoryName(r.category)
  {
    forall r | r in AdminList(b)
      ensures r.item in b.Get(r.category) && r.categoryName == CategoryName(r.category)
    {
      if r in Tagged(b.photos, Photos) {
        TaggedMembers(b.photos, Photos, r);
      } else if r in Tagged(b.shortVideos, ShortVideos) {
        TaggedMembers(b.shortVideos, ShortVideos, r);
      } else {
        TaggedMembers(b.longVideos, LongVideos, r);
      }
    }
  }

  // ---------------------------------------------------------------------------
  // Delete and edit
  // ---------------------------------------------------------------------------

  /**
   * `deleteItem`: a declined confirmation changes nothing; otherwise the bucket
   * is filtered whatever the delete returned.
   */
  method DeleteItem(items: Store, id: int, c: Category, confirmed: bool, deleted: Ack)
    modifies items
    ensures !confirmed ==> items.Contents() == old(items.Contents())
    ensures confirmed ==> items.Contents() == old(items.Contents()).With(c, WithoutId(old(items.Contents()).Get(c), id))
  {
    if !confirmed {
      return;
    }
    items.RemoveId(c, id);
  }

  /** What the form is pre-filled with; a duration only when the item has a non-empty one. */
  datatype Prefill = Prefill(category: Category, title: string, url: string, status: string, duration: Option<string>)

  function PrefillOf(c: Category, it: Item): (p: Prefill)
    ensures p.duration.Some? <==> it.duration.Some? && it.duration.value != ""
  {
    Prefill(c, it.title, it.url, it.status,
      if it.duration.Some? && it.duration.value != "" then it.duration else None)
  }

  /**
   * `editItem`: an id missing from the bucket changes nothing; otherwise the
   * form is pre-filled from the first item with the id, and the bucket is
   * filtered whatever the delete returned.
   */
  method EditItem(items: Store, id: int, c: Category, deleted: Ack) returns (prefill: Option<Prefill>)
    modifies items
    ensures FindItem(old(items.Contents()).Get(c), id).None? ==>
      prefill.None? && items.Contents() == old(items.Contents())
    ensures FindItem(old(items.Contents()).Get(c), id).Some? ==>
      prefill == Some(PrefillOf(c, FindItem(old(items.Contents()).Get(c), id).value))
      && items.Contents() == old(items.Contents()).With(c, WithoutId(old(items.Contents()).Get(c), id))
  {
    var found := items.Find(c, id);
    if found.None? {
      return None;
    }
    prefill := Some(PrefillOf(c, found.value));
    items.RemoveId(c, id);
  }

  /** After an edit of an id the bucket holds, no item of that bucket carries the id. */
  lemma EditRemovesId(b: Buckets, c: Category, id: int)
    requires FindItem(b.Get(c), id).Some?
    ensures forall it :: it in b.With(c, WithoutId(b.Get(c), id)).Get(c) ==> it.id != id
    ensures exists it :: it in b.Get(c) && it.id == id
  {
    var k := FirstIndex(b.Get(c), id).value;
    assert b.Get(c)[k] in b.Get(c);
  }

  // ---------------------------------------------------------------------------
  // Submit
  // ---------------------------------------------------------------------------

  /** The admin page's submit button: refused while no box is checked, otherwise the counts. */
  function AdminSubmit(boxes: seq<bool>): (r: Option<(nat, nat)>)
    ensures r.None? <==> forall i :: 0 <= i < |boxes| ==> !boxes[i]
    ensures r.Some? ==> 1 <= r.value.0 <= r.value.1 == |boxes|
  {
    var approved := CountChecked(boxes);
    if approved == 0 then None else Some((approved, |boxes|))
  }
}
