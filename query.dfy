/** The two database queries app.py runs over a user's entries: the
    `filter_by(user_id=…, is_archived=…)` selection and the `order_by`
    orderings (newest first; archive date descending, then newest first).
    The database sorts, so the ordering is a function here: an insertion
    sort proved to give a sorted permutation. */
module Query {
  import opened Wrappers
  import opened Calendar
  import opened Records

  /** Python's `a < b` on datetimes. */
  predicate TimeBefore(a: DateTime, b: DateTime) {
    Before(a.date, b.date) ||
    (a.date == b.date &&
      (a.hour < b.hour || (a.hour == b.hour &&
      (a.minute < b.minute || (a.minute == b.minute &&
      (a.second < b.second || (a.second == b.second && a.microsecond < b.microsecond)))))))
  }

  /** `filter_by(user_id=uid, is_archived=archived)`, in table order. */
  function Select(es: seq<Entry>, uid: int, archived: bool): (r: seq<Entry>)
    ensures |r| <= |es|
    ensures forall e :: e in r <==> e in es && e.owner == Some(uid) && e.isArchived == archived
    ensures multiset(r) <= multiset(es)
  {
    if es == [] then []
    else
      var rest := Select(es[1..], uid, archived);
      assert es == [es[0]] + es[1..];
      if es[0].owner == Some(uid) && es[0].isArchived == archived then [es[0]] + rest else rest
  }

  /** The two `order_by` clauses of app.py, both descending. */
  datatype Order =
    | NewestFirst                  // order_by(Expenses.timestamp.desc())
    | ArchiveDateThenNewestFirst   // order_by(archive_date.desc(), timestamp.desc())

  /** `a` may stand before `b` in order `o`. */
  predicate Precedes(o: Order, a: Entry, b: Entry) {
    match o
    case NewestFirst => !TimeBefore(a.timestamp, b.timestamp)
    case ArchiveDateThenNewestFirst =>
      Before(b.archiveDate, a.archiveDate) ||
      (a.archiveDate == b.archiveDate && !TimeBefore(a.timestamp, b.timestamp))
  }

  predicate SortedBy(o: Order, s: seq<Entry>) {
    forall i, j :: 0 <= i < j < |s| ==> Precedes(o, s[i], s[j])
  }

  lemma PrecedesTotal(o: Order, a: Entry, b: Entry)
    ensures Precedes(o, a, b) || Precedes(o, b, a)
  {
  }

  lemma PrecedesTransitive(o: Order, a: Entry, b: Entry, c: Entry)
    requires Precedes(o, a, b) && Precedes(o, b, c)
    ensures Precedes(o, a, c)
  {
  }

  /** Inserts `e` before the first element it may precede. */
  function Insert(o: Order, e: Entry, s: seq<Entry>): (r: seq<Entry>)
    ensures multiset(r) == multiset(s) + multiset{e}
    ensures |r| == |s| + 1
  {
    if s == [] then [e]
    else if Precedes(o, e, s[0]) then [e] + s
    else
      assert s == [s[0]] + s[1..];
      [s[0]] + Insert(o, e, s[1..])
  }

  lemma {:induction false} InsertSorted(o: Order, e: Entry, s: seq<Entry>)
    requires SortedBy(o, s)
    ensures SortedBy(o, Insert(o, e, s))
    ensures Insert(o, e, s) != [] && (Insert(o, e, s)[0] == e || (s != [] && Insert(o, e, s)[0] == s[0]))
  {
    if s == [] {
    } else if Precedes(o, e, s[0]) {
      forall j | 0 <= j < |s| ensures Precedes(o, e, s[j]) {
        if j > 0 { PrecedesTransitive(o, e, s[0], s[j]); }
      }
      PrependSorted(o, e, s);
    } else {
      PrecedesTotal(o, e, s[0]);
      InsertSorted(o, e, s[1..]);
      var t := Insert(o, e, s[1..]);
      forall j | 0 <= j < |t| ensures Precedes(o, s[0], t[j]) {
        assert t[j] in multiset(t);
        assert t[j] == e || t[j] in s[1..];
      }
      PrependSorted(o, s[0], t);
    }
  }

  /** An entry that precedes every entry of a sorted sequence can go in
      front of it. */
  lemma PrependSorted(o: Order, x: Entry, t: seq<Entry>)
    requires SortedBy(o, t)
    requires forall j :: 0 <= j < |t| ==> Precedes(o, x, t[j])
    ensures SortedBy(o, [x] + t)
  {
    var r := [x] + t;
    forall i, j | 0 <= i < j < |r| ensures Precedes(o, r[i], r[j]) {
      if i == 0 {
        assert r[j] == t[j - 1];
      } else {
        assert r[i] == t[i - 1] && r[j] == t[j - 1];
      }
    }
  }

  /** `order_by` in order `o`: a sorted permutation of `s`. */
  function Sort(o: Order, s: seq<Entry>): (r: seq<Entry>)
    ensures multiset(r) == multiset(s)
    ensures |r| == |s|
  {
    if s == [] then []
    else
      assert s == [s[0]] + s[1..];
      Insert(o, s[0], Sort(o, s[1..]))
  }

  lemma {:induction false} SortSorted(o: Order, s: seq<Entry>)
    ensures SortedBy(o, Sort(o, s))
  {
    if s != [] {
      SortSorted(o, s[1..]);
      InsertSorted(o, s[0], Sort(o, s[1..]));
    }
  }
}
