/**
 * The two things a reviewer takes away from the page: the feedback submission
 * (refused while nothing is approved) and the plain-text delivery report. The
 * page is seen as its sections, each a list of cards (the card's title, the
 * state of its approval checkbox and the text in its comment box).
 */
module Feedback {
  import opened Wrappers
  import opened Text
  import opened DeliverablesCore

  /** One card as the report reads it off the page. */
  datatype Entry = Entry(title: string, approved: bool, comment: string)

  /** A `.content` section: its element id, its `h2` heading and its cards. */
  datatype Section = Section(id: string, heading: string, entries: seq<Entry>)

  /** The admin page's report header, or the one the portal pages share. */
  datatype Style = AdminReport | PortalReport

  /** Only the three deliverable sections are written to the report. */
  predicate IsItemSection(id: string) {
    id == "photos" || id == "shortVideos" || id == "longVideos"
  }

  // ---------------------------------------------------------------------------
  // Cards on the page
  // ---------------------------------------------------------------------------

  /** Every card on the page, section by section. */
  function AllEntries(ss: seq<Section>): seq<Entry> {
    if ss == [] then [] else AllEntries(ss[..|ss| - 1]) + ss[|ss| - 1].entries
  }

  /** The cards of the deliverable sections, in page order: the ones the report lists. */
  function Listed(ss: seq<Section>): seq<Entry> {
    if ss == [] then []
    else Listed(ss[..|ss| - 1]) + (if IsItemSection(ss[|ss| - 1].id) then ss[|ss| - 1].entries else [])
  }

  /** The approval checkboxes of the cards. */
  function Boxes(es: seq<Entry>): (r: seq<bool>)
    ensures |r| == |es|
    ensures forall i :: 0 <= i < |es| ==> r[i] == es[i].approved
  {
    seq(|es|, i requires 0 <= i < |es| => es[i].approved)
  }

  // ---------------------------------------------------------------------------
  // The report, piece by piece
  // ---------------------------------------------------------------------------

  /** The pieces the report is appended from, in the order they are appended. */
  datatype Piece =
    | Heading(style: Style, date: string, time: string, approvedCount: nat, total: nat)
    | SectionTitle(heading: string)
    | ItemHead(title: string, approved: bool)
    | ItemComment(text: string)
    | ItemEnd
    | FinalNotes(text: string)

  /** The text each piece contributes. */
  function Render(p: Piece): string {
    match p
    case Heading(AdminReport, date, time, a, t) =>
      "=== CLIENT DELIVERY REPORT ===\nDate: " + date + "\nTime: " + time
      + "\nProgress: " + Decimal(a) + "/" + Decimal(t) + " approved\n\n"
    case Heading(PortalReport, date, time, a, t) =>
      "=== CLIENT DELIVERY PORTAL REPORT ===\n\nDate: " + date + "\nTime: " + time
      + "\nProgress: " + Decimal(a) + "/" + Decimal(t) + " items approved\n\n"
    case SectionTitle(h) => "\n--- " + h + " ---\n\n"
    case ItemHead(title, approved) =>
      title + "\nStatus: " + (if approved then "APPROVED \U{2713}" else "PENDING") + "\n"
    case ItemComment(text) => "Comment: " + text + "\n"
    case ItemEnd => "\n"
    case FinalNotes(text) => "\n--- FINAL NOTES ---\n" + text + "\n"
  }

  /** A card's pieces: its head, a comment line when the comment is not blank, a blank line. */
  function EntryPieces(e: Entry): seq<Piece> {
    [ItemHead(e.title, e.approved)] + (if IsBlank(e.comment) then [] else [ItemComment(e.comment)]) + [ItemEnd]
  }

  function EntriesPieces(es: seq<Entry>): seq<Piece> {
    if es == [] then [] else EntriesPieces(es[..|es| - 1]) + EntryPieces(es[|es| - 1])
  }

  /** A deliverable section's title and cards; any other section contributes nothing. */
  function SectionPieces(s: Section): seq<Piece> {
    if IsItemSection(s.id) then [SectionTitle(s.heading)] + EntriesPieces(s.entries) else []
  }

  function SectionsPieces(ss: seq<Section>): seq<Piece> {
    if ss == [] then [] else SectionsPieces(ss[..|ss| - 1]) + SectionPieces(ss[|ss| - 1])
  }

  function NotesPieces(notes: string): seq<Piece> {
    if IsBlank(notes) then [] else [FinalNotes(notes)]
  }

  /** The page-wide progress header: checked boxes over all boxes. */
  function Header(style: Style, date: string, time: string, ss: seq<Section>): Piece {
    var boxes := Boxes(AllEntries(ss));
    Heading(style, date, time, CountChecked(boxes), |boxes|)
  }

  /** The report as the sequence of pieces it is appended from. */
  function ReportPieces(style: Style, date: string, time: string, ss: seq<Section>, notes: string): seq<Piece> {
    [Header(style, date, time, ss)] + SectionsPieces(ss) + NotesPieces(notes)
  }

  /** The text of a run of pieces. */
  function Join(ps: seq<Piece>): string {
    if ps == [] then [] else Join(ps[..|ps| - 1]) + Render(ps[|ps| - 1])
  }

  lemma {:induction false} JoinAppend(a: seq<Piece>, b: seq<Piece>)
    ensures Join(a + b) == Join(a) + Join(b)
    decreases |b|
  {
    if b == [] {
      assert a + b == a;
    } else {
      var b', p := b[..|b| - 1], b[|b| - 1];
      assert (a + b)[..|a + b| - 1] == a + b';
      assert (a + b)[|a + b| - 1] == p;
      JoinAppend(a, b');
      var x, y, z := Join(a), Join(b'), Render(p);
      assert Join(a + b) == x + y + z;
      assert Join(b) == y + z;
      AppendAssoc(x, y, z);
    }
  }

  lemma JoinOne(p: Piece)
    ensures Join([p]) == Render(p)
  {
    assert [p][..0] == [];
  }

  // ---------------------------------------------------------------------------
  // The report as text, in the steps the handler appends it
  // ---------------------------------------------------------------------------

  /** What one card appends: its title and status, its comment when not blank, a blank line. */
  function EntryText(e: Entry): string {
    Render(ItemHead(e.title, e.approved))
    + (if IsBlank(e.comment) then [] else Render(ItemComment(e.comment))) + Render(ItemEnd)
  }

  function EntriesText(es: seq<Entry>): string {
    if es == [] then [] else EntriesText(es[..|es| - 1]) + EntryText(es[|es| - 1])
  }

  /** What one section appends: for a deliverable section its title, then its cards. */
  function SectionText(s: Section): string {
    if IsItemSection(s.id) then Render(SectionTitle(s.heading)) + EntriesText(s.entries) else []
  }

  function SectionsText(ss: seq<Section>): string {
    if ss == [] then [] else SectionsText(ss[..|ss| - 1]) + SectionText(ss[|ss| - 1])
  }

  /** The downloaded report. */
  function ReportText(style: Style, date: string, time: string, ss: seq<Section>, notes: string): string {
    Render(Header(style, date, time, ss)) + SectionsText(ss)
    + (if IsBlank(notes) then [] else Render(FinalNotes(notes)))
  }

  lemma JoinEntry(e: Entry)
    ensures Join(EntryPieces(e)) == EntryText(e)
  {
    var head := [ItemHead(e.title, e.approved)];
    var mid: seq<Piece> := if IsBlank(e.comment) then [] else [ItemComment(e.comment)];
    assert EntryPieces(e) == head + mid + [ItemEnd];
    JoinAppend(head + mid, [ItemEnd]);
    JoinAppend(head, mid);
    JoinOne(head[0]);
    JoinOne(ItemEnd);
    if !IsBlank(e.comment) {
      JoinOne(ItemComment(e.comment));
    }
  }

  lemma {:induction false} JoinEntries(es: seq<Entry>)
    ensures Join(EntriesPieces(es)) == EntriesText(es)
  {
    if es != [] {
      JoinEntries(es[..|es| - 1]);
      JoinEntry(es[|es| - 1]);
      JoinAppend(EntriesPieces(es[..|es| - 1]), EntryPieces(es[|es| - 1]));
    }
  }

  lemma {:induction false} JoinSections(ss: seq<Section>)
    ensures Join(SectionsPieces(ss)) == SectionsText(ss)
  {
    if ss != [] {
      var s := ss[|ss| - 1];
      JoinSections(ss[..|ss| - 1]);
      JoinAppend(SectionsPieces(ss[..|ss| - 1]), SectionPieces(s));
      if IsItemSection(s.id) {
        JoinAppend([SectionTitle(s.heading)], EntriesPieces(s.entries));
        JoinOne(SectionTitle(s.heading));
        JoinEntries(s.entries);
      }
    }
  }

  /** The report text is exactly the text of its pieces, in order. */
  lemma ReportTextIsJoin(style: Style, date: string, time: string, ss: seq<Section>, notes: string)
    ensures ReportText(style, date, time, ss, notes) == Join(ReportPieces(style, date, time, ss, notes))
  {
    var h := Header(style, date, time, ss);
    JoinAppend([h] + SectionsPieces(ss), NotesPieces(notes));
    JoinAppend([h], SectionsPieces(ss));
    JoinOne(h);
    JoinSections(ss);
    if !IsBlank(notes) {
      JoinOne(FinalNotes(notes));
    }
  }

  // ---------------------------------------------------------------------------
  // The download handler
  // ---------------------------------------------------------------------------

  /** One more card extends the text of the cards before it. */
  lemma EntriesSnoc(es: seq<Entry>, j: nat)
    requires j < |es|
    ensures EntriesText(es[..j + 1]) == EntriesText(es[..j]) + EntryText(es[j])
  {
    assert es[..j + 1][..j] == es[..j];
  }

  /** One more section extends the text of the sections before it. */
  lemma SectionsSnoc(ss: seq<Section>, i: nat)
    requires i < |ss|
    ensures SectionsText(ss[..i + 1]) == SectionsText(ss[..i]) + SectionText(ss[i])
  {
    assert ss[..i + 1][..i] == ss[..i];
  }

  /** The body of the inner loop: one card's lines appended to the report. */
  method AppendEntry(prefix: string, e: Entry) returns (report: string)
    ensures report == prefix + EntryText(e)
  {
    var head := Render(ItemHead(e.title, e.approved));
    report := prefix + head;
    var middle: string := [];
    if !IsBlank(e.comment) {
      middle := Render(ItemComment(e.comment));
      report := report + middle;
    } else {
      assert report == prefix + head + middle;
    }
    report := report + Render(ItemEnd);
    AppendAssoc(prefix, head, middle);
    AppendAssoc(prefix, head + middle, Render(ItemEnd));
  }

  /** The inner loop of the download handler: the cards of one section, appended in order. */
  method AppendEntries(prefix: string, es: seq<Entry>) returns (report: string)
    ensures report == prefix + EntriesText(es)
  {
    report := prefix;
    for j := 0 to |es|
      invariant report == prefix + EntriesText(es[..j])
    {
      report := AppendEntry(report, es[j]);
      EntriesSnoc(es, j);
      AppendAssoc(prefix, EntriesText(es[..j]), EntryText(es[j]));
    }
    assert es[..|es|] == es;
  }

  /**
   * The download handler: the header, then for each deliverable section its
   * title and its cards, then the final notes when they are not blank.
   */
  method BuildReport(style: Style, date: string, time: string, ss: seq<Section>, notes: string)
    returns (report: string)
    ensures report == ReportText(style, date, time, ss, notes)
  {
    report := Render(Header(style, date, time, ss));
    ghost var head := report;
    for i := 0 to |ss|
      invariant report == head + SectionsText(ss[..i])
    {
      var s := ss[i];
      ghost var before := report;
      if IsItemSection(s.id) {
        var title := Render(SectionTitle(s.heading));
        report := report + title;
        report := AppendEntries(report, s.entries);
        AppendAssoc(before, title, EntriesText(s.entries));
      } else {
        assert report == before + SectionText(s);
      }
      SectionsSnoc(ss, i);
      AppendAssoc(head, SectionsText(ss[..i]), SectionText(s));
    }
    assert ss[..|ss|] == ss;
    if !IsBlank(notes) {
      report := report + Render(FinalNotes(notes));
    }
  }

  // ---------------------------------------------------------------------------
  // What the report says
  // ---------------------------------------------------------------------------

  /** The pieces with the section titles taken out: the cards' own lines. */
  function WithoutTitles(ps: seq<Piece>): seq<Piece> {
    if ps == [] then []
    else WithoutTitles(ps[..|ps| - 1]) + (if ps[|ps| - 1].SectionTitle? then [] else [ps[|ps| - 1]])
  }

  lemma {:induction false} WithoutTitlesAppend(a: seq<Piece>, b: seq<Piece>)
    ensures WithoutTitles(a + b) == WithoutTitles(a) + WithoutTitles(b)
    decreases |b|
  {
    if b == [] {
      assert a + b == a;
    } else {
      assert (a + b)[..|a + b| - 1] == a + b[..|b| - 1];
      WithoutTitlesAppend(a, b[..|b| - 1]);
    }
  }

  lemma {:induction false} EntriesHaveNoTitles(es: seq<Entry>)
    ensures WithoutTitles(EntriesPieces(es)) == EntriesPieces(es)
  {
    if es != [] {
      var e := es[|es| - 1];
      EntriesHaveNoTitles(es[..|es| - 1]);
      WithoutTitlesAppend(EntriesPieces(es[..|es| - 1]), EntryPieces(e));
      var mid: seq<Piece> := if IsBlank(e.comment) then [] else [ItemComment(e.comment)];
      WithoutTitlesAppend([ItemHead(e.title, e.approved)], mid);
      WithoutTitlesAppend([ItemHead(e.title, e.approved)] + mid, [ItemEnd]);
      assert [ItemHead(e.title, e.approved)][..0] == [];
      assert [ItemEnd][..0] == [];
      assert mid != [] ==> mid[..0] == [];
    }
  }

  /**
   * Below its header, the report is the cards of the deliverable sections in
   * page order, each as its head line, its comment line when the comment is
   * not blank, and a blank line; only section titles come in between.
   */
  lemma {:induction false} ReportBody(ss: seq<Section>)
    ensures WithoutTitles(SectionsPieces(ss)) == EntriesPieces(Listed(ss))
  {
    if ss != [] {
      var init, s := ss[..|ss| - 1], ss[|ss| - 1];
      ReportBody(init);
      WithoutTitlesAppend(SectionsPieces(init), SectionPieces(s));
      EntriesAppend(Listed(init), if IsItemSection(s.id) then s.entries else []);
      if IsItemSection(s.id) {
        WithoutTitlesAppend([SectionTitle(s.heading)], EntriesPieces(s.entries));
        assert [SectionTitle(s.heading)][..0] == [];
        EntriesHaveNoTitles(s.entries);
      }
    }
  }

  lemma {:induction false} EntriesAppend(a: seq<Entry>, b: seq<Entry>)
    ensures EntriesPieces(a + b) == EntriesPieces(a) + EntriesPieces(b)
    decreases |b|
  {
    if b == [] {
      assert a + b == a;
    } else {
      assert (a + b)[..|a + b| - 1] == a + b[..|b| - 1];
      EntriesAppend(a, b[..|b| - 1]);
    }
  }

  /** A card has a comment line exactly when its comment is not blank, and the line carries that comment. */
  lemma EntryComment(e: Entry, t: string)
    ensures ItemComment(t) in EntryPieces(e) <==> !IsBlank(e.comment) && t == e.comment
  {
  }

  /** A comment line appears in the report exactly for a listed card whose comment is not blank. */
  lemma {:induction false} ReportComments(style: Style, date: string, time: string, ss: seq<Section>, notes: string, t: string)
    ensures ItemComment(t) in ReportPieces(style, date, time, ss, notes)
      <==> exists e :: e in Listed(ss) && !IsBlank(e.comment) && e.comment == t
  {
    var body := SectionsPieces(ss);
    ReportBody(ss);
    assert ItemComment(t) in body <==> ItemComment(t) in WithoutTitles(body) by {
      WithoutTitlesKeeps(body, ItemComment(t));
    }
    EntriesComments(Listed(ss), t);
  }

  /** Taking titles out keeps every other piece. */
  lemma {:induction false} WithoutTitlesKeeps(ps: seq<Piece>, p: Piece)
    requires !p.SectionTitle?
    ensures p in WithoutTitles(ps) <==> p in ps
  {
    if ps != [] {
      WithoutTitlesKeeps(ps[..|ps| - 1], p);
      assert ps == ps[..|ps| - 1] + [ps[|ps| - 1]];
    }
  }

  lemma {:induction false} EntriesComments(es: seq<Entry>, t: string)
    ensures ItemComment(t) in EntriesPieces(es) <==> exists e :: e in es && !IsBlank(e.comment) && e.comment == t
  {
    if es != [] {
      var init, e := es[..|es| - 1], es[|es| - 1];
      EntriesComments(init, t);
      EntryComment(e, t);
      assert es == init + [e];
      if exists e' :: e' in es && !IsBlank(e'.comment) && e'.comment == t {
        var e' :| e' in es && !IsBlank(e'.comment) && e'.comment == t;
        if e' != e {
          assert e' in init;
        }
      }
    }
  }

  /** The section part of a report holds no heading and no final notes. */
  lemma {:induction false} SectionsHaveNoNotes(ss: seq<Section>, p: Piece)
    requires p in SectionsPieces(ss)
    ensures !p.FinalNotes? && !p.Heading?
  {
    var init, s := ss[..|ss| - 1], ss[|ss| - 1];
    if p in SectionsPieces(init) {
      SectionsHaveNoNotes(init, p);
    } else if p != SectionTitle(s.heading) {
      EntriesHaveNoNotes(s.entries, p);
    }
  }

  lemma {:induction false} EntriesHaveNoNotes(es: seq<Entry>, p: Piece)
    requires p in EntriesPieces(es)
    ensures !p.FinalNotes? && !p.Heading?
  {
    var init := es[..|es| - 1];
    if p in EntriesPieces(init) {
      EntriesHaveNoNotes(init, p);
    }
  }

  /** The FINAL NOTES block appears exactly when the notes are not blank, and then it carries them. */
  lemma FinalNotesIff(style: Style, date: string, time: string, ss: seq<Section>, notes: string)
    ensures (exists n :: FinalNotes(n) in ReportPieces(style, date, time, ss, notes)) <==> !IsBlank(notes)
    ensures forall n :: FinalNotes(n) in ReportPieces(style, date, time, ss, notes) ==> n == notes
  {
    var ps := ReportPieces(style, date, time, ss, notes);
    forall n | FinalNotes(n) in ps
      ensures n == notes && !IsBlank(notes)
    {
      if FinalNotes(n) in SectionsPieces(ss) {
        SectionsHaveNoNotes(ss, FinalNotes(n));
      }
    }
    if !IsBlank(notes) {
      assert ps[|ps| - 1] == FinalNotes(notes);
    }
  }

  // ---------------------------------------------------------------------------
  // Submitting the feedback
  // ---------------------------------------------------------------------------

  /** An entry of the `comments` list a submission collects. */
  datatype Remark = Remark(item: string, comment: string)

  datatype Submission = Refused | Submitted(approved: nat, total: nat, remarks: seq<Remark>, notes: string)

  /** The cards with a non-blank comment box, in page order, with their untrimmed text. */
  function Remarks(es: seq<Entry>): seq<Remark> {
    if es == [] then []
    else
      var e := es[|es| - 1];
      Remarks(es[..|es| - 1]) + (if IsBlank(e.comment) then [] else [Remark(e.title, e.comment)])
  }

  /** A remark is collected exactly for each card whose comment is not blank. */
  lemma {:induction false} RemarksMembers(es: seq<Entry>, r: Remark)
    ensures r in Remarks(es) <==> exists e :: e in es && !IsBlank(e.comment) && r == Remark(e.title, e.comment)
  {
    if es != [] {
      var init, e := es[..|es| - 1], es[|es| - 1];
      RemarksMembers(init, r);
      assert es == init + [e];
      if exists e' :: e' in es && !IsBlank(e'.comment) && r == Remark(e'.title, e'.comment) {
        var e' :| e' in es && !IsBlank(e'.comment) && r == Remark(e'.title, e'.comment);
        if e' != e {
          assert e' in init;
        }
      }
    }
  }

  /**
   * The portal pages' submit button: refused while no card is approved;
   * otherwise the counts, the non-blank comments and the final notes.
   */
  function Submit(es: seq<Entry>, notes: string): (r: Submission)
    ensures r.Refused? <==> forall i :: 0 <= i < |es| ==> !es[i].approved
    ensures r.Submitted? ==> 1 <= r.approved <= r.total && r.total == |es|
    ensures r.Submitted? ==> r.remarks == Remarks(es) && r.notes == notes
  {
    var boxes := Boxes(es);
    var approved := CountChecked(boxes);
    if approved == 0 then Refused else Submitted(approved, |boxes|, Remarks(es), notes)
  }
}
