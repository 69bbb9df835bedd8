/**
 * The original single-script page (script.js). Unlike the later pages it keeps
 * comments and approvals in a separate `comments` table merged into the mirror
 * on load, assigns ids to new items from a local counter, falls back to four
 * built-in deliverables when loading fails, and renders the approved badge
 * straight from the item.
 */
module LegacyScript {
  import opened Wrappers
  import opened Remote
  import opened Text
  import opened Mirror
  import opened DeliverablesCore
  import opened DeliverablesAdmin
  import opened Feedback

  /** A row of the `comments` table. */
  datatype CommentRow = CommentRow(itemId: int, text: string, approved: bool)

  /** What `saveComment` upserts (keyed on the item id). */
  datatype Upsert = Upsert(itemId: int, commentText: string, isApproved: bool)

  // ---------------------------------------------------------------------------
  // Built-in data and ids
  // ---------------------------------------------------------------------------

  /** The ids of all items, in grid order. */
  function AllIds(b: Buckets): seq<int> {
    seq(|b.photos|, i requires 0 <= i < |b.photos| => b.photos[i].id)
    + seq(|b.shortVideos|, i requires 0 <= i < |b.shortVideos| => b.shortVideos[i].id)
    + seq(|b.longVideos|, i requires 0 <= i < |b.longVideos| => b.longVideos[i].id)
  }

  /** `loadDefaultData`'s four deliverables, all stamped with the current time. */
  function DefaultItems(now: string): (b: Buckets)
    ensures AllIds(b) == [1, 2, 3, 4]
    ensures IdsAtMost(b, 4)
  {
    var b := Buckets(
      [Item(1, "Feed Image 01", "https://drive.google.com/file/d/example1", "pending", None, None, None, false, now),
       Item(2, "Story Image 01", "https://drive.google.com/file/d/example2", "pending", None, None, None, false, now)],
      [Item(3, "Reel Video 01", "https://drive.google.com/file/d/example3", "uploaded", Some("0:28"), None, None, false, now)],
      [Item(4, "Promo Video", "https://drive.google.com/file/d/example4", "rendering", Some("1:05"), Some(75), None, false, now)]);
    b
  }

  /** The counter after loading `rows` from counter `k`: the largest of `k` and the rows' ids. */
  function MaxId(k: int, rows: seq<Row>): (m: int)
    ensures k <= m
    ensures forall i :: 0 <= i < |rows| ==> rows[i].id <= m
    ensures m == k || exists i :: 0 <= i < |rows| && rows[i].id == m
  {
    if rows == [] then k
    else
      var m := MaxId(k, rows[..|rows| - 1]);
      var last := rows[|rows| - 1];
      if last.id > m then last.id else m
  }

  /** One more row raises the counter to its id when that is larger. */
  lemma MaxIdSnoc(k: int, rows: seq<Row>, i: nat)
    requires i < |rows|
    ensures MaxId(k, rows[..i + 1]) ==
      if rows[i].id > MaxId(k, rows[..i]) then rows[i].id else MaxId(k, rows[..i])
  {
    assert rows[..i + 1][..i] == rows[..i];
  }

  /** One more row of a known category lands at the end of its bucket. */
  lemma PartitionStep(rows: seq<Row>, i: nat, c: Category)
    requires i < |rows| && ParseCategory(rows[i].category) == Some(c)
    ensures Partition(rows[..i + 1]) == Partition(rows[..i]).Push(c, Format(rows[i]))
  {
    assert rows[..i + 1] == rows[..i] + [rows[i]];
    PartitionSnoc(rows[..i], rows[i]);
  }

  /** Every row names one of the three buckets (otherwise `items[row.category]` is undefined). */
  predicate AllKnown(rows: seq<Row>) {
    forall i :: 0 <= i < |rows| ==> ParseCategory(rows[i].category).Some?
  }

  /** The prefix of known rows grows by a known row. */
  lemma AllKnownStep(rows: seq<Row>, i: nat)
    requires i < |rows| && AllKnown(rows[..i]) && ParseCategory(rows[i].category).Some?
    ensures AllKnown(rows[..i + 1])
  {
    var prefix := rows[..i + 1];
    forall j | 0 <= j < |prefix|
      ensures ParseCategory(prefix[j].category).Some?
    {
      if j < i {
        assert prefix[j] == rows[..i][j];
      }
    }
  }

  /** A bucket whose items all have ids at most `n` may replace any bucket. */
  lemma IdsAtMostWith(b: Buckets, c: Category, s: seq<Item>, n: int)
    requires IdsAtMost(b, n)
    requires forall j :: 0 <= j < |s| ==> s[j].id <= n
    ensures IdsAtMost(b.With(c, s), n)
  {
    var b' := b.With(c, s);
    forall d: Category, j | 0 <= j < |b'.Get(d)|
      ensures b'.Get(d)[j].id <= n
    {
      if d != c {
        assert b'.Get(d) == b.Get(d);
      }
    }
  }

  /** Every loaded item's id is at most the counter the load leaves. */
  lemma {:induction false} PartitionIdsAtMost(k: int, rows: seq<Row>)
    ensures IdsAtMost(Partition(rows), MaxId(k, rows))
  {
    var m := MaxId(k, rows);
    forall c: Category, j | 0 <= j < |Partition(rows).Get(c)|
      ensures Partition(rows).Get(c)[j].id <= m
    {
      var it := Partition(rows).Get(c)[j];
      assert Partition(rows).Get(c) == Select(rows, c);
      SelectMembers(rows, c, it);
      var i :| 0 <= i < |rows| && rows[i].category == Key(c) && Format(rows[i]) == it;
    }
  }

  // ---------------------------------------------------------------------------
  // Merging the comments table
  // ---------------------------------------------------------------------------

  /** The comment rows applied in order, each to the first item with its id in every bucket. */
  function MergeComments(b: Buckets, cs: seq<CommentRow>): Buckets {
    if cs == [] then b
    else
      var last := cs[|cs| - 1];
      PatchAll(MergeComments(b, cs[..|cs| - 1]), last.itemId, SetReview(last.text, last.approved))
  }

  /** The last comment row for `id`, if any: the one a merge leaves in effect. */
  function LastComment(cs: seq<CommentRow>, id: int): (r: Option<CommentRow>)
    ensures r.Some? ==> r.value in cs && r.value.itemId == id
    ensures r.None? <==> forall i :: 0 <= i < |cs| ==> cs[i].itemId != id
  {
    if cs == [] then None
    else if cs[|cs| - 1].itemId == id then Some(cs[|cs| - 1])
    else LastComment(cs[..|cs| - 1], id)
  }

  /** A find-and-set keeps every bucket's length and every item's id. */
  lemma PatchAllKeepsIds(b: Buckets, id: int, p: Patch)
    ensures forall c: Category :: |PatchAll(b, id, p).Get(c)| == |b.Get(c)|
    ensures forall c: Category, j :: 0 <= j < |b.Get(c)| ==> PatchAll(b, id, p).Get(c)[j].id == b.Get(c)[j].id
  {
    forall c: Category
      ensures |PatchAll(b, id, p).Get(c)| == |b.Get(c)|
      ensures forall j :: 0 <= j < |b.Get(c)| ==> PatchAll(b, id, p).Get(c)[j].id == b.Get(c)[j].id
    {
      assert PatchAll(b, id, p).Get(c) == PatchFirst(b.Get(c), id, p);
      PatchFirstAtFirstIndex(b.Get(c), id, p);
    }
  }

  /** Merging keeps every bucket's length and every item's id. */
  lemma {:induction false} MergeKeepsIds(b: Buckets, cs: seq<CommentRow>)
    ensures forall c: Category :: |MergeComments(b, cs).Get(c)| == |b.Get(c)|
    ensures forall c: Category, j :: 0 <= j < |b.Get(c)| ==> MergeComments(b, cs).Get(c)[j].id == b.Get(c)[j].id
  {
    if cs != [] {
      var last := cs[|cs| - 1];
      MergeKeepsIds(b, cs[..|cs| - 1]);
      PatchAllKeepsIds(MergeComments(b, cs[..|cs| - 1]), last.itemId, SetReview(last.text, last.approved));
    }
  }

  /**
   * With ids unique within a bucket, after the merge each item carries the
   * comment text and approval of the last comment row for its id, and an item
   * without comment rows is as it was loaded.
   */
  lemma {:induction false} LastCommentWins(b: Buckets, cs: seq<CommentRow>, c: Category, j: nat)
    requires UniqueIds(b.Get(c)) && j < |b.Get(c)|
    ensures j < |MergeComments(b, cs).Get(c)|
    ensures var it := b.Get(c)[j];
      MergeComments(b, cs).Get(c)[j] ==
        match LastComment(cs, it.id)
        case None => it
        case Some(cr) => Apply(SetReview(cr.text, cr.approved), it)
  {
    MergeKeepsIds(b, cs);
    var it := b.Get(c)[j];
    if cs != [] {
      var last := cs[|cs| - 1];
      var init := cs[..|cs| - 1];
      var m := MergeComments(b, init);
      LastCommentWins(b, init, c, j);
      MergeKeepsIds(b, init);
      assert UniqueIds(m.Get(c)) by {
        forall p, q | 0 <= p < q < |m.Get(c)|
          ensures m.Get(c)[p].id != m.Get(c)[q].id
        {
          assert m.Get(c)[p].id == b.Get(c)[p].id;
          assert m.Get(c)[q].id == b.Get(c)[q].id;
        }
      }
      PatchAllEffect(m, last.itemId, SetReview(last.text, last.approved));
    }
  }

  // ---------------------------------------------------------------------------
  // Rendering and saving
  // ---------------------------------------------------------------------------

  /** `createItemHTML`: an approved item is drawn approved whatever its status. */
  function LegacyView(it: Item): CardView {
    if it.isApproved then CardView(true, {"badge", "badge-approved"}, "Approved")
    else CardView(false, {"badge", StatusBadge(it.status)}, StatusText(it.status))
  }

  /** This page draws every card exactly as the review page does after `updateApprovalStates`. */
  lemma LegacyViewAgrees(it: Item)
    ensures LegacyView(it) == RenderedView(it)
  {
    if it.isApproved {
      var cls := StatusBadge(it.status);
      assert {"badge", cls} - {"badge-pending", "badge-uploaded", "badge-rendering"} + {"badge-approved"}
        == {"badge", "badge-approved"};
    }
  }

  /** A card on the page with the id its comment box carries. */
  datatype Card = Card(id: int, entry: Entry)

  function CardEntries(cards: seq<Card>): (es: seq<Entry>)
    ensures |es| == |cards|
    ensures forall i :: 0 <= i < |cards| ==> es[i] == cards[i].entry
  {
    seq(|cards|, i requires 0 <= i < |cards| => cards[i].entry)
  }

  /** The saves the submit button starts: one per comment box, with the trimmed text and the checkbox. */
  function SaveRequests(cards: seq<Card>): (r: seq<Upsert>)
    ensures |r| == |cards|
    ensures forall i :: 0 <= i < |cards| ==>
      r[i] == Upsert(cards[i].id, Trim(cards[i].entry.comment), cards[i].entry.approved)
  {
    seq(|cards|, i requires 0 <= i < |cards| => Upsert(cards[i].id, Trim(cards[i].entry.comment), cards[i].entry.approved))
  }

  /**
   * The submit button: refused, with nothing saved, while no card is approved;
   * otherwise every card is saved before the submission is collected.
   */
  function LegacySubmit(cards: seq<Card>, notes: string): (r: (seq<Upsert>, Submission))
    ensures r.1 == Submit(CardEntries(cards), notes)
    ensures r.1.Refused? <==> forall i :: 0 <= i < |cards| ==> !cards[i].entry.approved
    ensures r.1.Refused? ==> r.0 == []
    ensures r.1.Submitted? ==> r.0 == SaveRequests(cards)
  {
    var outcome := Submit(CardEntries(cards), notes);
    if outcome.Refused? then ([], outcome) else (SaveRequests(cards), outcome)
  }

  /** The item the add form builds from counter value `id`. */
  function NewItem(id: int, f: Form, roll: Roll, now: string): (it: Item)
    ensures it.id == id && !it.isApproved && it.comment.None?
    ensures it.duration.Some? <==> f.category != Photos && f.duration != ""
    ensures it.progress.Some? <==> f.status == "rendering"
  {
    var d := DraftOf(f, roll);
    Item(id, f.title, f.url, f.status, d.duration, d.progress, None, false, now)
  }

  // ---------------------------------------------------------------------------
  // The page's state
  // ---------------------------------------------------------------------------

  /** The script's `items` and `itemIdCounter`. */
  class Portal {
    const items: Store
    var itemIdCounter: int

    /** The counter is at least every id in the mirror. */
    ghost predicate Valid()
      reads this, items
    {
      IdsAtMost(items.Contents(), itemIdCounter)
    }

    constructor ()
      ensures Valid() && fresh(items)
      ensures items.Contents() == Empty && itemIdCounter == 0
    {
      items := new Store();
      itemIdCounter := 0;
    }

    /** `loadDefaultData`. */
    method LoadDefaultData(now: string)
      modifies this, items
      ensures Valid()
      ensures items.Contents() == DefaultItems(now) && itemIdCounter == 4
    {
      items.Assign(DefaultItems(now));
      itemIdCounter := 4;
    }

    /**
     * The first half of `loadData`: each row is pushed onto its bucket while the
     * counter climbs to the largest id, until a row of unknown category
     * throws (`known` false, the mirror left half-loaded).
     */
    method PushRows(rows: seq<Row>) returns (known: bool)
      modifies this, items
      ensures known == AllKnown(rows)
      ensures known ==> items.Contents() == Partition(rows) && itemIdCounter == MaxId(old(itemIdCounter), rows)
    {
      ghost var start := itemIdCounter;
      items.Assign(Empty);
      for i := 0 to |rows|
        invariant items.Contents() == Partition(rows[..i])
        invariant itemIdCounter == MaxId(start, rows[..i])
        invariant AllKnown(rows[..i])
      {
        var category := ParseCategory(rows[i].category);
        if category.None? {
          assert !AllKnown(rows) by {
            assert !ParseCategory(rows[i].category).Some?;
          }
          return false;
        }
        PartitionStep(rows, i, category.value);
        MaxIdSnoc(start, rows, i);
        AllKnownStep(rows, i);
        PushRow(category.value, rows[i]);
      }
      assert rows[..|rows|] == rows;
      return true;
    }

    /** One step of the row loop: the row onto its bucket, the counter raised to its id. */
    method PushRow(c: Category, r: Row)
      modifies this, items
      ensures items.Contents() == old(items.Contents()).Push(c, Format(r))
      ensures itemIdCounter == if r.id > old(itemIdCounter) then r.id else old(itemIdCounter)
    {
      items.Push(c, Format(r));
      if r.id > itemIdCounter {
        itemIdCounter := r.id;
      }
    }

    /** The second half of `loadData`: the comment rows patched in, in order. */
    method MergeRows(cs: seq<CommentRow>)
      requires Valid()
      modifies items
      ensures Valid()
      ensures items.Contents() == MergeComments(old(items.Contents()), cs)
    {
      ghost var loaded := items.Contents();
      for j := 0 to |cs|
        invariant items.Contents() == MergeComments(loaded, cs[..j])
      {
        assert cs[..j + 1][..j] == cs[..j];
        items.PatchEach(cs[j].itemId, SetReview(cs[j].text, cs[j].approved));
      }
      assert cs[..|cs|] == cs;
      MergeKeepsIds(loaded, cs);
    }

    /**
     * `loadData`: a failed fetch of either table, or a row of unknown category,
     * leaves the built-in data; otherwise the mirror is the rows by category
     * with the comments merged in. Either way the counter ends at least every id.
     */
    method LoadData(itemsFetch: Reply<seq<Row>>, commentsFetch: Reply<seq<CommentRow>>, now: string)
      modifies this, items
      ensures Valid()
      ensures itemsFetch.Err? || !AllKnown(itemsFetch.data) || commentsFetch.Err? ==>
        items.Contents() == DefaultItems(now) && itemIdCounter == 4
      ensures itemsFetch.Ok? && AllKnown(itemsFetch.data) && commentsFetch.Ok? ==>
        items.Contents() == MergeComments(Partition(itemsFetch.data), commentsFetch.data)
        && itemIdCounter == MaxId(old(itemIdCounter), itemsFetch.data)
    {
      if itemsFetch.Err? {
        LoadDefaultData(now);
        return;
      }
      var known := PushRows(itemsFetch.data);
      if !known {
        LoadDefaultData(now);
        return;
      }
      PartitionIdsAtMost(old(itemIdCounter), itemsFetch.data);
      if commentsFetch.Err? {
        LoadDefaultData(now);
        return;
      }
      MergeRows(commentsFetch.data);
    }

    /**
     * `handleSaveComment`: the trimmed comment and the checkbox are upserted,
     * and the mirror takes them only when the upsert succeeded.
     */
    method HandleSaveComment(id: int, value: string, checked: bool, upsert: Ack) returns (request: Upsert)
      requires Valid()
      modifies items
      ensures Valid()
      ensures request == Upsert(id, Trim(value), checked)
      ensures upsert.Err? ==> items.Contents() == old(items.Contents())
      ensures upsert.Ok? ==> items.Contents() == PatchAll(old(items.Contents()), id, SetReview(Trim(value), checked))
    {
      var text := Trim(value);
      request := Upsert(id, text, checked);
      if upsert.Ok? {
        ghost var before := items.Contents();
        items.PatchEach(id, SetReview(text, checked));
        PatchAllKeepsIds(before, id, SetReview(text, checked));
      }
    }

    /**
     * `handleApprovalChange`: the card flips and the checkbox is upserted with
     * the box's trimmed comment; the mirror is left as it was.
     */
    method HandleApprovalChange(card: CardView, id: int, checked: bool, commentValue: string)
      returns (shown: CardView, request: Upsert)
      ensures shown == ToggleView(card, checked)
      ensures request == Upsert(id, Trim(commentValue), checked)
    {
      shown := ToggleView(card, checked);
      request := Upsert(id, Trim(commentValue), checked);
    }

    /**
     * The add form: the counter goes up first (and stays up if the insert
     * fails); the new item takes the new counter value, an id no item has yet,
     * and is appended only when the insert succeeded.
     */
    method AddItem(f: Form, roll: Roll, now: string, inserted: Ack) returns (newItem: Item)
      requires Valid()
      modifies this, items
      ensures Valid()
      ensures itemIdCounter == old(itemIdCounter) + 1
      ensures newItem == NewItem(itemIdCounter, f, roll, now)
      ensures forall c: Category, j :: 0 <= j < |old(items.Contents()).Get(c)| ==>
        old(items.Contents()).Get(c)[j].id < newItem.id
      ensures inserted.Err? ==> items.Contents() == old(items.Contents())
      ensures inserted.Ok? ==> items.Contents() == old(items.Contents()).Push(f.category, newItem)
    {
      itemIdCounter := itemIdCounter + 1;
      newItem := NewItem(itemIdCounter, f, roll, now);
      if inserted.Ok? {
        ghost var before := items.Contents();
        items.Push(f.category, newItem);
        IdsAtMostWith(before, f.category, before.Get(f.category) + [newItem], itemIdCounter);
      }
    }

    /**
     * `deleteItem`: the bucket is filtered only after a confirmed delete of the
     * deliverable succeeded; the outcome of deleting its comment row is ignored.
     */
    method DeleteItem(id: int, c: Category, confirmed: bool, deliverableDeleted: Ack, commentDeleted: Ack)
      requires Valid()
      modifies items
      ensures Valid()
      ensures !confirmed || deliverableDeleted.Err? ==> items.Contents() == old(items.Contents())
      ensures confirmed && deliverableDeleted.Ok? ==>
        items.Contents() == old(items.Contents()).With(c, WithoutId(old(items.Contents()).Get(c), id))
    {
      if confirmed && deliverableDeleted.Ok? {
        ghost var before := items.Contents();
        items.RemoveId(c, id);
        var kept := WithoutId(before.Get(c), id);
        forall j | 0 <= j < |kept|
          ensures kept[j].id <= itemIdCounter
        {
          assert kept[j] in before.Get(c);
        }
        IdsAtMostWith(before, c, kept, itemIdCounter);
      }
    }

    /**
     * `editItem`: an id missing from the bucket changes nothing; otherwise the
     * form is pre-filled and the item goes through `deleteItem`, confirmation
     * included.
     */
    method EditItem(id: int, c: Category, confirmed: bool, deliverableDeleted: Ack, commentDeleted: Ack)
      returns (prefill: Option<Prefill>)
      requires Valid()
      modifies items
      ensures Valid()
      ensures FindItem(old(items.Contents()).Get(c), id).None? ==>
        prefill.None? && items.Contents() == old(items.Contents())
      ensures FindItem(old(items.Contents()).Get(c), id).Some? ==>
        prefill == Some(PrefillOf(c, FindItem(old(items.Contents()).Get(c), id).value))
      ensures FindItem(old(items.Contents()).Get(c), id).Some? && (!confirmed || deliverableDeleted.Err?) ==>
        items.Contents() == old(items.Contents())
      ensures FindItem(old(items.Contents()).Get(c), id).Some? && confirmed && deliverableDeleted.Ok? ==>
        items.Contents() == old(items.Contents()).With(c, WithoutId(old(items.Contents()).Get(c), id))
    {
      var found := items.Find(c, id);
      if found.None? {
        return None;
      }
      prefill := Some(PrefillOf(c, found.value));
      DeleteItem(id, c, confirmed, deliverableDeleted, commentDeleted);
    }
  }
}
