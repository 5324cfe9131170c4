/** The day/archive lifecycle of app.py: adding an entry, the automatic
    sweep that runs whenever the front page is read, the manual "end day",
    the grouped history page, deleting an entry and saving notes. The
    database is the `Store` object; `User` holds the two note columns. */
module App {
  import opened Wrappers
  import opened Text
  import opened Calendar
  import opened Records
  import opened Query

  /** The logged-in user (`current_user`) with the two note columns. */
  class User {
    const id: int
    var quickNote: Option<string>
    var notebook: Option<string>

    /** A fresh account: both notes default to "". */
    constructor (id: int)
      ensures this.id == id && quickNote == Some("") && notebook == Some("")
    {
      this.id := id;
      quickNote := Some("");
      notebook := Some("");
    }
  }

  /** Outcome of the POST branch of `index`. */
  datatype CreateOutcome =
    | Created(id: int)     // committed, then redirect('/')
    | CreateError          // the commit raised: a NOT NULL column got None

  /** Outcome of `delete`. */
  datatype DeleteOutcome =
    | NotFound                       // get_or_404
    | Unauthorized                   // the entry is someone else's
    | Deleted(wasArchived: bool)     // redirect to /history or to /

  /** One day of the history page: an `archive_date` and its entries. */
  datatype DayGroup = DayGroup(date: Date, items: seq<Entry>)

  // ---------------------------------------------------------------------
  // What the sweep and the end of day do to one entry
  // ---------------------------------------------------------------------

  /** The sweep's rule for one entry: an active entry of the user whose own
      logical day is before `today` moves to history, stamped with that
      own day. */
  function Swept(e: Entry, uid: int, today: Date): Entry
    requires WellFormed(e)
  {
    if ActiveFor(e, uid) && Before(LogicalDate(e.timestamp), today)
    then e.(isArchived := true, archiveDate := LogicalDate(e.timestamp))
    else e
  }

  function SweepAll(es: seq<Entry>, uid: int, today: Date): (r: seq<Entry>)
    requires forall i :: 0 <= i < |es| ==> WellFormed(es[i])
    ensures |r| == |es|
  {
    seq(|es|, i requires 0 <= i < |es| => Swept(es[i], uid, today))
  }

  /** The end-of-day rule for one entry: every active entry of the user
      moves to history, stamped with `today`. */
  function Ended(e: Entry, uid: int, today: Date): Entry {
    if ActiveFor(e, uid) then e.(isArchived := true, archiveDate := today) else e
  }

  function EndAll(es: seq<Entry>, uid: int, today: Date): (r: seq<Entry>)
    ensures |r| == |es|
  {
    seq(|es|, i requires 0 <= i < |es| => Ended(es[i], uid, today))
  }

  /** The sweep changes no id and keeps every entry well formed. */
  lemma SweepAllKeeps(es: seq<Entry>, uid: int, today: Date)
    requires forall i :: 0 <= i < |es| ==> WellFormed(es[i])
    ensures forall i :: 0 <= i < |es| ==>
      SweepAll(es, uid, today)[i].id == es[i].id && WellFormed(SweepAll(es, uid, today)[i])
  {
  }

  /** What the loop of `SweepRows` leaves once it has seen every
      entry: the swept table, well formed with the ids unchanged, and a
      flag that is set exactly when something changed. */
  lemma SweepDone(before: seq<Entry>, entries: seq<Entry>, uid: int, today: Date,
                  itemsToArchive: bool, changed: int)
    requires forall k :: 0 <= k < |before| ==> WellFormed(before[k])
    requires |entries| == |before|
    requires forall k :: 0 <= k < |entries| ==> entries[k] == Swept(before[k], uid, today)
    requires itemsToArchive ==> 0 <= changed < |entries| && entries[changed] != before[changed]
    requires !itemsToArchive ==> forall k :: 0 <= k < |entries| ==> entries[k] == before[k]
    ensures entries == SweepAll(before, uid, today)
    ensures itemsToArchive <==> entries != before
    ensures forall k :: 0 <= k < |entries| ==> entries[k].id == before[k].id && WellFormed(entries[k])
  {
    SweepAllKeeps(before, uid, today);
    if !itemsToArchive {
      assert entries == before;
    }
  }

  /** The loop of `index` over the user's active entries, on the
      session's copies of the rows: each whose own logical day is before
      `today` moves to history, and `itemsToArchive` records that one did. */
  method SweepRows(before: seq<Entry>, uid: int, today: Date) returns (rows: seq<Entry>, itemsToArchive: bool)
    requires forall k :: 0 <= k < |before| ==> WellFormed(before[k])
    ensures rows == SweepAll(before, uid, today)
    ensures itemsToArchive <==> rows != before
    ensures forall k :: 0 <= k < |rows| ==> rows[k].id == before[k].id && WellFormed(rows[k])
  {
    rows := before;
    itemsToArchive := false;
    ghost var changed := 0;  // an index the sweep rewrote, once there is one
    var i := 0;
    while i < |rows|
      invariant 0 <= i <= |rows| == |before|
      invariant forall k :: 0 <= k < i ==> rows[k] == Swept(before[k], uid, today)
      invariant forall k :: i <= k < |rows| ==> rows[k] == before[k]
      invariant itemsToArchive ==> 0 <= changed < i && rows[changed] != before[changed]
      invariant !itemsToArchive ==> forall k :: 0 <= k < i ==> rows[k] == before[k]
    {
      var item := rows[i];
      if ActiveFor(item, uid) {
        var itemDay := LogicalDate(item.timestamp);
        if Before(itemDay, today) {
          rows := rows[i := item.(isArchived := true, archiveDate := itemDay)];
          itemsToArchive := true;
          changed := i;
        }
      }
      i := i + 1;
    }
    SweepDone(before, rows, uid, today, itemsToArchive, changed);
  }

  /** The end of day changes no id and keeps every entry well formed. */
  lemma EndAllKeeps(es: seq<Entry>, uid: int, today: Date)
    requires ValidDate(today) && forall i :: 0 <= i < |es| ==> WellFormed(es[i])
    ensures forall i :: 0 <= i < |es| ==>
      EndAll(es, uid, today)[i].id == es[i].id && WellFormed(EndAll(es, uid, today)[i])
  {
  }

  /** After the sweep no active entry of the user belongs to a day before
      `today`. */
  lemma SweepLeavesNoStaleEntry(es: seq<Entry>, uid: int, today: Date)
    requires forall i :: 0 <= i < |es| ==> WellFormed(es[i])
    ensures forall i :: 0 <= i < |es| && ActiveFor(SweepAll(es, uid, today)[i], uid) ==>
      !Before(LogicalDate(es[i].timestamp), today)
  {
  }

  /** The sweep touches only active entries of the user, archives each one
      it touches and stamps it with the entry's own logical day, which is
      before `today`; it never brings an archived entry back. */
  lemma SweepChanges(es: seq<Entry>, uid: int, today: Date)
    requires forall i :: 0 <= i < |es| ==> WellFormed(es[i])
    ensures forall i :: 0 <= i < |es| && es[i].owner != Some(uid) ==> SweepAll(es, uid, today)[i] == es[i]
    ensures forall i :: 0 <= i < |es| && es[i].isArchived ==> SweepAll(es, uid, today)[i] == es[i]
    ensures forall i :: 0 <= i < |es| && SweepAll(es, uid, today)[i] != es[i] ==>
      SweepAll(es, uid, today)[i] == es[i].(isArchived := true, archiveDate := LogicalDate(es[i].timestamp)) &&
      Before(SweepAll(es, uid, today)[i].archiveDate, today)
  {
  }

  /** A second sweep with the same `today` changes nothing. */
  lemma SweepIdempotent(es: seq<Entry>, uid: int, today: Date)
    requires forall i :: 0 <= i < |es| ==> WellFormed(es[i])
    ensures SweepAll(SweepAll(es, uid, today), uid, today) == SweepAll(es, uid, today)
  {
    var once := SweepAll(es, uid, today);
    SweepAllKeeps(es, uid, today);
    var twice := SweepAll(once, uid, today);
    forall i | 0 <= i < |es| ensures twice[i] == once[i] {
      assert once[i] == Swept(es[i], uid, today);
    }
  }

  /** After the end of day no entry of the user is active; each entry it
      archived carries `today`, and nothing else changed. */
  lemma EndAllArchivesEverything(es: seq<Entry>, uid: int, today: Date)
    ensures forall i :: 0 <= i < |es| ==> !ActiveFor(EndAll(es, uid, today)[i], uid)
    ensures forall i :: 0 <= i < |es| && ActiveFor(es[i], uid) ==>
      EndAll(es, uid, today)[i] == es[i].(isArchived := true, archiveDate := today)
    ensures forall i :: 0 <= i < |es| && !ActiveFor(es[i], uid) ==> EndAll(es, uid, today)[i] == es[i]
  {
  }

  /** The two ways into history stamp differently: an entry the sweep would
      archive gets its own day, strictly earlier than the `today` the end
      of day would give it. */
  lemma SweepStampBeforeEndStamp(e: Entry, uid: int, today: Date)
    requires WellFormed(e) && Swept(e, uid, today) != e
    ensures Ended(e, uid, today).archiveDate == today
    ensures Swept(e, uid, today).archiveDate == LogicalDate(e.timestamp)
    ensures Before(Swept(e, uid, today).archiveDate, Ended(e, uid, today).archiveDate)
  {
  }

  /** An entry written on the morning of 2024-01-29 and left on the front
      page: a visit on 2024-01-30 files it under the 29th, ending the day on
      the 30th files it under the 30th. */
  lemma StampsDivergeExample()
    ensures var e := Entry(1, "read", "09:00", "10:00", DateTime(Date(2024, 1, 29), 10, 0, 0, 0),
                           false, Date(2024, 1, 29), Some(7));
            Swept(e, 7, Date(2024, 1, 30)).archiveDate == Date(2024, 1, 29) &&
            Ended(e, 7, Date(2024, 1, 30)).archiveDate == Date(2024, 1, 30)
  {
  }

  /** The entries of a history page, in page order. */
  function Flatten(gs: seq<DayGroup>): seq<Entry> {
    if gs == [] then [] else Flatten(gs[..|gs| - 1]) + gs[|gs| - 1].items
  }

  /** Where `get_or_404(id)` finds the row, if it exists. */
  function IndexOfId(es: seq<Entry>, id: int): (r: Option<nat>)
    ensures r.Some? ==> r.value < |es| && es[r.value].id == id
    ensures r.None? ==> forall k :: 0 <= k < |es| ==> es[k].id != id
  {
    if es == [] then None
    else if es[0].id == id then Some(0)
    else match IndexOfId(es[1..], id)
      case None => None
      case Some(k) => Some(k + 1)
  }

  /** `strftime("%H:%M:%S")`. */
  function ClockText(t: DateTime): string
    requires ValidDateTime(t)
  {
    Pad2(t.hour) + ":" + Pad2(t.minute) + ":" + Pad2(t.second)
  }

  // ---------------------------------------------------------------------
  // The store
  // ---------------------------------------------------------------------

  class Store {
    /** The `Expenses` table, in insertion order. */
    var entries: seq<Entry>
    /** The next primary key the database hands out. */
    var nextId: int

    ghost predicate Valid()
      reads this
    {
      (forall i :: 0 <= i < |entries| ==> WellFormed(entries[i]) && entries[i].id < nextId) &&
      (forall i, j :: 0 <= i < j < |entries| ==> entries[i].id != entries[j].id)
    }

    constructor ()
      ensures Valid() && entries == []
    {
      entries := [];
      nextId := 1;
    }

    /** POST `/`: adds an active entry for the user. `requestTime` is the
        clock read for the logical date (line 81), `insertTime` the one the
        `timestamp` column default takes when the row is written. A missing
        form field is a NULL in a NOT NULL column: the commit fails and
        nothing is stored. */
    method Create(user: User, desc: Option<string>, start: Option<string>, end: Option<string>,
                  requestTime: DateTime, insertTime: DateTime) returns (r: CreateOutcome)
      requires Valid() && HasLogicalDate(requestTime) && HasLogicalDate(insertTime)
      modifies this
      ensures Valid()
      ensures desc.None? || start.None? || end.None? ==> r == CreateError && entries == old(entries)
      ensures desc.Some? && start.Some? && end.Some? ==>
        r.Created? &&
        (forall k :: 0 <= k < |old(entries)| ==> old(entries)[k].id != r.id) &&
        entries == old(entries) + [Entry(r.id, desc.value, start.value, end.value, insertTime,
                                         false, LogicalDate(requestTime), Some(user.id))]
    {
      var logical := LogicalDate(requestTime);
      if desc.None? || start.None? || end.None? {
        return CreateError;
      }
      var item := Entry(nextId, desc.value, start.value, end.value, insertTime, false, logical, Some(user.id));
      entries := entries + [item];
      r := Created(nextId);
      nextId := nextId + 1;
    }

    /** GET `/`: the auto-archive sweep, then the front page. `committed`
        says whether the sweep wrote anything; `page` is what is left on
        the front page, newest first. */
    method Index(user: User, now: DateTime) returns (committed: bool, page: seq<Entry>)
      requires Valid() && HasLogicalDate(now)
      modifies this
      ensures Valid() && nextId == old(nextId)
      ensures entries == SweepAll(old(entries), user.id, LogicalDate(now))
      ensures committed <==> entries != old(entries)
      ensures page == Sort(NewestFirst, Select(entries, user.id, false))
    {
      var today := LogicalDate(now);
      var rows, itemsToArchive := SweepRows(entries, user.id, today);
      entries := rows;  // the commit writes the changed rows
      committed := itemsToArchive;
      page := Sort(NewestFirst, Select(entries, user.id, false));
    }

    /** POST `/end_day`: every active entry of the user goes to history
        under today's logical date; the quick note is emptied and the
        notebook kept. */
    method EndDay(user: User, now: DateTime)
      requires Valid() && HasLogicalDate(now)
      modifies this, user
      ensures Valid() && nextId == old(nextId)
      ensures entries == EndAll(old(entries), user.id, LogicalDate(now))
      ensures user.quickNote == Some("") && user.notebook == old(user.notebook)
    {
      var today := LogicalDate(now);
      ghost var before := entries;
      var i := 0;
      while i < |entries|
        invariant 0 <= i <= |entries| == |before|
        invariant nextId == old(nextId) && user.notebook == old(user.notebook)
        invariant forall k :: 0 <= k < i ==> entries[k] == Ended(before[k], user.id, today)
        invariant forall k :: i <= k < |entries| ==> entries[k] == before[k]
      {
        var item := entries[i];
        if ActiveFor(item, user.id) {
          entries := entries[i := item.(isArchived := true, archiveDate := today)];
        }
        i := i + 1;
      }
      assert entries == EndAll(before, user.id, today);
      EndAllKeeps(before, user.id, today);
      user.quickNote := Some("");
    }

    /** GET `/history`: the user's archived entries, ordered by archive date
        and then timestamp, both descending, grouped by archive date. */
    method History(user: User) returns (groups: seq<DayGroup>)
      requires Valid()
      ensures Flatten(groups) == Sort(ArchiveDateThenNewestFirst, Select(entries, user.id, true))
      ensures multiset(Flatten(groups)) == multiset(Select(entries, user.id, true))
      ensures forall g :: g in groups ==> g.items != [] && forall e :: e in g.items ==> e.archiveDate == g.date
      ensures forall g, e :: g in groups && e in g.items ==> ArchivedFor(e, user.id)
      ensures forall i, j :: 0 <= i < j < |groups| ==> Before(groups[j].date, groups[i].date)
      ensures forall g :: g in groups ==> SortedBy(NewestFirst, g.items)
    {
      ghost var archived := Select(entries, user.id, true);
      var rows := Sort(ArchiveDateThenNewestFirst, Select(entries, user.id, true));
      SortSorted(ArchiveDateThenNewestFirst, archived);
      groups := GroupByArchiveDate(rows);
      HistoryGroups(groups, rows, archived, user.id);
    }

    /** POST `/delete/<id>`: only the owner may delete; the entry may be
        active or archived. */
    method Delete(user: User, id: int) returns (r: DeleteOutcome)
      requires Valid()
      modifies this
      ensures Valid() && nextId == old(nextId)
      ensures IndexOfId(old(entries), id).None? ==> r == NotFound && entries == old(entries)
      ensures IndexOfId(old(entries), id).Some? ==>
        var k := IndexOfId(old(entries), id).value;
        if old(entries)[k].owner != Some(user.id)
        then r == Unauthorized && entries == old(entries)
        else r == Deleted(old(entries)[k].isArchived) && entries == old(entries)[..k] + old(entries)[k + 1..]
    {
      var found := IndexOfId(entries, id);
      if found.None? {
        return NotFound;
      }
      var k := found.value;
      var item := entries[k];
      if item.owner != Some(user.id) {
        return Unauthorized;
      }
      entries := entries[..k] + entries[k + 1..];
      r := Deleted(item.isArchived);
    }

    /** POST `/save_notes`: type 'quick_note' writes the quick note, any
        other type (missing included) the notebook; the answer carries the
        save time as `HH:MM:SS`. */
    method SaveNotes(user: User, noteType: Option<string>, content: Option<string>, now: DateTime)
      returns (savedAt: string)
      requires ValidDateTime(now)
      modifies user
      ensures noteType == Some("quick_note") ==>
                user.quickNote == content && user.notebook == old(user.notebook)
      ensures noteType != Some("quick_note") ==>
                user.notebook == content && user.quickNote == old(user.quickNote)
      ensures savedAt == ClockText(now)
    {
      if noteType == Some("quick_note") {
        user.quickNote := content;
      } else {
        user.notebook := content;
      }
      savedAt := ClockText(now);
    }
  }

  // ---------------------------------------------------------------------
  // Helpers about history pages
  // ---------------------------------------------------------------------

  /** The loop of `History` that starts a group at each new archive date
      and otherwise appends the row to the last group. */
  method GroupByArchiveDate(rows: seq<Entry>) returns (groups: seq<DayGroup>)
    requires SortedBy(ArchiveDateThenNewestFirst, rows)
    ensures GroupedPrefix(groups, rows, |rows|)
  {
    groups := [];
    var i := 0;
    while i < |rows|
      invariant GroupedPrefix(groups, rows, i)
    {
      var row := rows[i];
      if groups != [] && groups[|groups| - 1].date == row.archiveDate {
        var last := groups[|groups| - 1];
        GrowLastGroup(groups, rows, i);
        groups := groups[..|groups| - 1] + [DayGroup(last.date, last.items + [row])];
      } else {
        StartGroup(groups, rows, i);
        groups := groups + [DayGroup(row.archiveDate, [row])];
      }
      i := i + 1;
    }
  }

  /** The loop invariant of `History`: the groups built so far hold exactly
      the first `i` rows, one group per archive date, dates strictly
      descending, each group newest first. */
  ghost predicate GroupedPrefix(groups: seq<DayGroup>, rows: seq<Entry>, i: int) {
    0 <= i <= |rows| &&
    SortedBy(ArchiveDateThenNewestFirst, rows) &&
    Flatten(groups) == rows[..i] &&
    (i == 0 <==> groups == []) &&
    (groups != [] ==> groups[|groups| - 1].date == rows[i - 1].archiveDate) &&
    (forall g :: g in groups ==> g.items != [] && forall e :: e in g.items ==> e.archiveDate == g.date) &&
    (forall a, b :: 0 <= a < b < |groups| ==> Before(groups[b].date, groups[a].date)) &&
    (forall g :: g in groups ==> SortedBy(NewestFirst, g.items))
  }

  lemma {:induction false} InFlatten(gs: seq<DayGroup>, g: DayGroup, e: Entry)
    requires g in gs && e in g.items
    ensures e in Flatten(gs)
  {
    if g != gs[|gs| - 1] {
      assert g in gs[..|gs| - 1];
      InFlatten(gs[..|gs| - 1], g, e);
    }
  }

  lemma FlattenAppend(gs: seq<DayGroup>, g: DayGroup)
    ensures Flatten(gs + [g]) == Flatten(gs) + g.items
  {
    assert (gs + [g])[..|gs|] == gs;
  }

  /** The next row has the date of the last group: it joins that group. */
  lemma GrowLastGroup(groups: seq<DayGroup>, rows: seq<Entry>, i: int)
    requires GroupedPrefix(groups, rows, i) && i < |rows|
    requires groups != [] && groups[|groups| - 1].date == rows[i].archiveDate
    ensures GroupedPrefix(groups[..|groups| - 1] + [DayGroup(groups[|groups| - 1].date,
                          groups[|groups| - 1].items + [rows[i]])], rows, i + 1)
  {
    var last := groups[|groups| - 1];
    var init := groups[..|groups| - 1];
    var grown := DayGroup(last.date, last.items + [rows[i]]);
    var next := init + [grown];
    GrownFlatten(groups, rows[i]);
    assert rows[..i + 1] == rows[..i] + [rows[i]];
    GrownSorted(groups, rows, i);
    forall g | g in next
      ensures g.items != [] && forall e :: e in g.items ==> e.archiveDate == g.date
      ensures SortedBy(NewestFirst, g.items)
    {
      if g != grown {
        assert g in groups;
      }
    }
    forall a, b | 0 <= a < b < |next| ensures Before(next[b].date, next[a].date) {
      assert next[a].date == groups[a].date && next[b].date == groups[b].date;
    }
  }

  /** Appending a row to the last group appends it to the rows. */
  lemma GrownFlatten(groups: seq<DayGroup>, row: Entry)
    requires groups != []
    ensures Flatten(groups[..|groups| - 1] + [DayGroup(groups[|groups| - 1].date, groups[|groups| - 1].items + [row])])
            == Flatten(groups) + [row]
  {
    var last := groups[|groups| - 1];
    var init := groups[..|groups| - 1];
    var grown := DayGroup(last.date, last.items + [row]);
    var f := Flatten(init);
    assert Flatten(groups) == f + last.items;
    FlattenAppend(init, grown);
    assert Flatten(init + [grown]) == f + grown.items;
    assert f + (last.items + [row]) == (f + last.items) + [row];
  }

  /** The last group stays newest first when the next row joins it. */
  lemma GrownSorted(groups: seq<DayGroup>, rows: seq<Entry>, i: int)
    requires GroupedPrefix(groups, rows, i) && i < |rows|
    requires groups != [] && groups[|groups| - 1].date == rows[i].archiveDate
    ensures SortedBy(NewestFirst, groups[|groups| - 1].items + [rows[i]])
  {
    var last := groups[|groups| - 1];
    var items := last.items + [rows[i]];
    assert SortedBy(NewestFirst, last.items);
    forall a, b | 0 <= a < b < |items|
      ensures Precedes(NewestFirst, items[a], items[b])
    {
      if b == |last.items| {
        var x := items[a];
        assert x in last.items;
        InFlatten(groups, last, x);
        var ix :| 0 <= ix < i && rows[ix] == x;
        assert Precedes(ArchiveDateThenNewestFirst, rows[ix], rows[i]);
      } else {
        assert items[a] == last.items[a] && items[b] == last.items[b];
      }
    }
  }

  /** The next row has a new date: it opens a group of its own. */
  lemma StartGroup(groups: seq<DayGroup>, rows: seq<Entry>, i: int)
    requires GroupedPrefix(groups, rows, i) && i < |rows|
    requires !(groups != [] && groups[|groups| - 1].date == rows[i].archiveDate)
    ensures GroupedPrefix(groups + [DayGroup(rows[i].archiveDate, [rows[i]])], rows, i + 1)
  {
    var g := DayGroup(rows[i].archiveDate, [rows[i]]);
    var next := groups + [g];
    FlattenAppend(groups, g);
    assert rows[..i + 1] == rows[..i] + [rows[i]];
    forall h | h in next
      ensures h.items != [] && forall e :: e in h.items ==> e.archiveDate == h.date
      ensures SortedBy(NewestFirst, h.items)
    {
      if h != g {
        assert h in groups;
      }
    }
    if groups != [] {
      assert Precedes(ArchiveDateThenNewestFirst, rows[i - 1], rows[i]);
      var d := groups[|groups| - 1].date;
      assert Before(rows[i].archiveDate, d);
      forall a, b | 0 <= a < b < |next| ensures Before(next[b].date, next[a].date) {
        if b == |groups| && a < |groups| - 1 {
          assert Before(d, groups[a].date);
        }
      }
    }
  }

  /** Once every row is placed, the groups are the history page. */
  lemma HistoryGroups(groups: seq<DayGroup>, rows: seq<Entry>, archived: seq<Entry>, uid: int)
    requires GroupedPrefix(groups, rows, |rows|)
    requires rows == Sort(ArchiveDateThenNewestFirst, archived)
    requires forall e :: e in archived ==> ArchivedFor(e, uid)
    ensures Flatten(groups) == rows
    ensures multiset(Flatten(groups)) == multiset(archived)
    ensures forall g :: g in groups ==> g.items != [] && forall e :: e in g.items ==> e.archiveDate == g.date
    ensures forall g, e :: g in groups && e in g.items ==> ArchivedFor(e, uid)
    ensures forall i, j :: 0 <= i < j < |groups| ==> Before(groups[j].date, groups[i].date)
    ensures forall g :: g in groups ==> SortedBy(NewestFirst, g.items)
  {
    assert rows[..|rows|] == rows;
    HistoryMembers(groups, archived, uid);
  }

  /** Every entry on the history page is an archived entry of the user. */
  lemma HistoryMembers(groups: seq<DayGroup>, archived: seq<Entry>, uid: int)
    requires forall e :: e in archived ==> ArchivedFor(e, uid)
    requires Flatten(groups) == Sort(ArchiveDateThenNewestFirst, archived)
    ensures forall g, e :: g in groups && e in g.items ==> ArchivedFor(e, uid)
  {
    forall g, e | g in groups && e in g.items ensures ArchivedFor(e, uid) {
      InFlatten(groups, g, e);
      assert e in multiset(Sort(ArchiveDateThenNewestFirst, archived));
    }
  }
}
