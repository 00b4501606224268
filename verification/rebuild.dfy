/**
 Rebuilding the per-task conversation records from request and response files:
 every entry is upserted into a sorted list, twice, in two directories.
 */
module ConversationRebuild {
  import opened Collections
  import opened Ordering
  import opened Payloads
  import opened Sorting

  /** One invocation; `body` stands for the fields that are only carried along. */
  datatype Entry = Entry(invocationId: string, taskId: string, windowIndex: Option<int>, endedAt: string,
                         status: string, body: Fields)

  /** A record file. */
  datatype Record = Record(taskId: string, createdAt: string, updatedAt: string, invocations: seq<Entry>,
                           invocationCount: int, latestInvocationId: string, latestWindowIndex: Option<int>, latestStatus: string)

  // ---------- The sort key ----------

  function Window(e: Entry): int {
    if e.windowIndex.Some? then e.windowIndex.value else 0
  }

  /** `a` sorts strictly before `b`: window index, then end time, then invocation id. */
  predicate Before(a: Entry, b: Entry) {
    || Window(a) < Window(b)
    || (Window(a) == Window(b) && (Less(a.endedAt, b.endedAt)
                                   || (a.endedAt == b.endedAt && Less(a.invocationId, b.invocationId))))
  }

  lemma BeforeTotal(a: Entry, b: Entry)
    requires a.invocationId != b.invocationId
    ensures Before(a, b) || Before(b, a)
  {
    LessTotal(a.endedAt, b.endedAt);
    LessTotal(a.invocationId, b.invocationId);
  }

  lemma BeforeAsymmetric(a: Entry, b: Entry)
    requires Before(a, b)
    ensures !Before(b, a)
  {
    LessIrreflexive(a.endedAt);
    if Less(a.endedAt, b.endedAt) {
      LessAsymmetric(a.endedAt, b.endedAt);
    } else if Less(a.invocationId, b.invocationId) {
      LessAsymmetric(a.invocationId, b.invocationId);
    }
  }

  lemma NotBeforeTransitive(a: Entry, b: Entry, c: Entry)
    requires !Before(a, b) && !Before(b, c)
    ensures !Before(a, c)
  {
    LessTotal(a.endedAt, b.endedAt);
    LessTotal(b.endedAt, c.endedAt);
    LessTotal(a.invocationId, b.invocationId);
    LessTotal(b.invocationId, c.invocationId);
    if Less(b.endedAt, a.endedAt) && Less(a.endedAt, c.endedAt) {
      LessTransitive(b.endedAt, a.endedAt, c.endedAt);
    }
    if Less(b.invocationId, a.invocationId) && Less(a.invocationId, c.invocationId) {
      LessTransitive(b.invocationId, a.invocationId, c.invocationId);
    }
  }

  lemma BeforeIsStrict()
    ensures StrictOrder(Before)
  {
    forall a, b | Before(a, b) ensures !Before(b, a) {
      BeforeAsymmetric(a, b);
    }
    forall a, b, c | !Before(a, b) && !Before(b, c) ensures !Before(a, c) {
      NotBeforeTransitive(a, b, c);
    }
  }

  ghost predicate Sorted(s: seq<Entry>) {
    forall i, j :: 0 <= i < j < |s| ==> !Before(s[j], s[i])
  }

  // ---------- Upserting into the list ----------

  /** Stable insertion. */
  function Insert(e: Entry, s: seq<Entry>): seq<Entry> {
    InsertBy(e, s, Before)
  }

  /** The stable sort of the list. */
  function Sort(s: seq<Entry>): seq<Entry> {
    SortBy(s, Before)
  }

  function Without(id: string, s: seq<Entry>): seq<Entry> {
    if s == [] then []
    else Without(id, s[..|s| - 1]) + (if s[|s| - 1].invocationId != id then [s[|s| - 1]] else [])
  }

  /** The list the code builds: filter, append, sort. */
  function Upsert(s: seq<Entry>, e: Entry): seq<Entry> {
    Sort(Without(e.invocationId, s) + [e])
  }

  function UpsertAll(s: seq<Entry>, es: seq<Entry>): seq<Entry> {
    if es == [] then s else Upsert(UpsertAll(s, es[..|es| - 1]), es[|es| - 1])
  }

  lemma InsertStep(e: Entry, s: seq<Entry>)
    ensures Insert(e, s) == if s == [] || !Before(e, s[|s| - 1]) then s + [e] else Insert(e, s[..|s| - 1]) + [s[|s| - 1]]
  {
    hide Before;
  }

  lemma {:induction false} InsertMembers(e: Entry, s: seq<Entry>)
    ensures forall x :: x in Insert(e, s) <==> x == e || x in s
    ensures |Insert(e, s)| == |s| + 1
  {
    if s != [] {
      assert s == s[..|s| - 1] + [s[|s| - 1]];
      if Before(e, s[|s| - 1]) {
        InsertMembers(e, s[..|s| - 1]);
      }
    }
  }

  lemma SortSorted(s: seq<Entry>)
    ensures Sorted(Sort(s))
  {
    BeforeIsStrict();
    var ks := SortByIsStable(s, Before);
    hide Before;
  }

  lemma {:induction false} SortOfSorted(s: seq<Entry>)
    requires Sorted(s)
    ensures Sort(s) == s
  {
    hide Before;
    if s != [] {
      var front := s[..|s| - 1];
      SortOfSorted(front);
      if front != [] {
        assert !Before(s[|s| - 1], front[|front| - 1]);
      }
      assert s == front + [s[|s| - 1]];
    }
  }

  lemma {:induction false} SortMembers(s: seq<Entry>)
    ensures forall x :: x in Sort(s) <==> x in s
    ensures |Sort(s)| == |s|
  {
    if s != [] {
      SortMembers(s[..|s| - 1]);
      InsertMembers(s[|s| - 1], Sort(s[..|s| - 1]));
      assert s == s[..|s| - 1] + [s[|s| - 1]];
    }
  }

  lemma {:induction false} WithoutMembers(id: string, s: seq<Entry>)
    ensures forall x :: x in Without(id, s) <==> x in s && x.invocationId != id
  {
    if s != [] {
      WithoutMembers(id, s[..|s| - 1]);
      assert s == s[..|s| - 1] + [s[|s| - 1]];
    }
  }

  lemma WithoutSnoc(id: string, s: seq<Entry>, e: Entry)
    ensures Without(id, s + [e]) == Without(id, s) + (if e.invocationId != id then [e] else [])
  {
    assert (s + [e])[..|s|] == s;
  }

  lemma {:induction false} WithoutSorted(id: string, s: seq<Entry>)
    requires Sorted(s)
    ensures Sorted(Without(id, s))
  {
    if s != [] {
      var front, last := s[..|s| - 1], s[|s| - 1];
      WithoutSorted(id, front);
      WithoutMembers(id, front);
      var t := Without(id, front);
      forall i | 0 <= i < |t| ensures !Before(last, t[i]) {
        assert t[i] in t;
      }
    }
  }

  lemma NotBeforeRemaining(id: string, e: Entry, s: seq<Entry>)
    requires Sorted(s) && (s != [] ==> !Before(e, s[|s| - 1]))
    ensures var t := Without(id, s); t != [] ==> !Before(e, t[|t| - 1])
  {
    WithoutMembers(id, s);
    var t := Without(id, s);
    if t != [] {
      assert t[|t| - 1] in s;
      var k :| 0 <= k < |s| && s[k] == t[|t| - 1];
      if k < |s| - 1 {
        NotBeforeTransitive(e, s[|s| - 1], s[k]);
      }
    }
  }

  /** Removing commutes with sorted insertion. */
  lemma {:induction false} WithoutInsert(id: string, e: Entry, s: seq<Entry>)
    requires Sorted(s)
    ensures Without(id, Insert(e, s)) ==
            if e.invocationId == id then Without(id, s) else Insert(e, Without(id, s))
  {
    InsertStep(e, s);
    InsertStep(e, Without(id, s));
    hide Insert;
    if s == [] || !Before(e, s[|s| - 1]) {
      WithoutSnoc(id, s, e);
      NotBeforeRemaining(id, e, s);
      hide Before, Sorted;
      assert Without(id, s) + [] == Without(id, s);
    } else {
      var front, last := s[..|s| - 1], s[|s| - 1];
      WithoutInsert(id, e, front);
      WithoutSnoc(id, Insert(e, front), last);
      hide Before, Sorted;
      if last.invocationId == id {
        assert Without(id, front) + [] == Without(id, front);
        assert Without(id, Insert(e, front)) + [] == Without(id, Insert(e, front));
      } else if e.invocationId != id {
        InsertBeforeLast(e, Without(id, front), last);
      }
    }
  }

  lemma InsertBeforeLast(e: Entry, s: seq<Entry>, last: Entry)
    requires Before(e, last)
    ensures Insert(e, s + [last]) == Insert(e, s) + [last]
  {
    assert (s + [last])[..|s|] == s;
  }

  lemma InsertAtEnd(e: Entry, s: seq<Entry>, last: Entry)
    requires !Before(e, last)
    ensures Insert(e, s + [last]) == s + [last] + [e]
  {
  }

  lemma {:induction false} InsertsCommute(a: Entry, b: Entry, s: seq<Entry>)
    requires Sorted(s) && Before(a, b)
    ensures Insert(a, Insert(b, s)) == Insert(b, Insert(a, s))
  {
    BeforeAsymmetric(a, b);
    if s == [] {
      InsertBeforeLast(a, [], b);
      InsertAtEnd(b, [], a);
      assert [] + [a] == [a] && [] + [b] == [b];
    } else {
      var front, last := s[..|s| - 1], s[|s| - 1];
      if Before(b, last) {
        if !Before(a, last) {
          NotBeforeTransitive(a, last, b) by { BeforeAsymmetric(b, last); }
        }
        InsertsCommute(a, b, front);
        InsertBeforeLast(a, Insert(b, front), last);
        InsertBeforeLast(b, Insert(a, front), last);
      } else {
        InsertBeforeLast(a, s, b);
        if Before(a, last) {
          InsertAtEnd(b, Insert(a, front), last);
        } else {
          InsertAtEnd(b, s, a);
        }
      }
    }
  }

  lemma {:induction false} WithoutCommutes(x: string, y: string, s: seq<Entry>)
    ensures Without(x, Without(y, s)) == Without(y, Without(x, s))
    ensures x == y ==> Without(x, Without(y, s)) == Without(x, s)
  {
    if s != [] {
      var front, last := s[..|s| - 1], s[|s| - 1];
      WithoutCommutes(x, y, front);
      var p, q := Without(y, front), Without(x, front);
      WithoutSnoc(x, p, last);
      WithoutSnoc(y, q, last);
      assert p + [] == p && q + [] == q && Without(x, p) + [] == Without(x, p) && Without(y, q) + [] == Without(y, q);
    }
  }

  lemma {:induction false} WithoutSort(id: string, s: seq<Entry>)
    ensures Without(id, Sort(s)) == Sort(Without(id, s))
  {
    if s != [] {
      var front, last := s[..|s| - 1], s[|s| - 1];
      WithoutSort(id, front);
      SortSorted(front);
      WithoutInsert(id, last, Sort(front));
      SortSnoc(Without(id, front), last);
      assert Without(id, front) + [] == Without(id, front);
    }
  }

  lemma SortSnoc(s: seq<Entry>, e: Entry)
    ensures Sort(s + [e]) == Insert(e, Sort(s))
  {
    assert (s + [e])[..|s|] == s;
  }

  /** On any list, upserting is removing and inserting in the sorted list. */
  lemma {:induction false} UpsertIsInsert(s: seq<Entry>, e: Entry)
    ensures Upsert(s, e) == Insert(e, Without(e.invocationId, Sort(s)))
    ensures Sorted(Upsert(s, e))
    ensures Upsert(s, e) == Upsert(Sort(s), e)
  {
    SortSnoc(Without(e.invocationId, s), e);
    WithoutSort(e.invocationId, s);
    SortSorted(Without(e.invocationId, s) + [e]);
    SortSorted(s);
    SortOfSorted(Sort(s));
    SortSnoc(Without(e.invocationId, Sort(s)), e);
    WithoutSort(e.invocationId, Sort(s));
  }

  lemma UpsertsCommute(s: seq<Entry>, a: Entry, b: Entry)
    requires Sorted(s) && a.invocationId != b.invocationId
    ensures Upsert(Upsert(s, a), b) == Upsert(Upsert(s, b), a)
  {
    BeforeTotal(a, b);
    var r := Without(a.invocationId, Without(b.invocationId, s));
    WithoutSorted(b.invocationId, s);
    WithoutSorted(a.invocationId, Without(b.invocationId, s));
    TwoUpserts(s, a, b);
    TwoUpserts(s, b, a);
    WithoutCommutes(a.invocationId, b.invocationId, s);
    if Before(a, b) {
      InsertsCommute(a, b, r);
    } else {
      InsertsCommute(b, a, r);
    }
  }

  lemma TwoUpserts(s: seq<Entry>, a: Entry, b: Entry)
    requires Sorted(s)
    ensures Upsert(Upsert(s, a), b) ==
            if a.invocationId == b.invocationId then Upsert(s, b)
            else Insert(b, Insert(a, Without(b.invocationId, Without(a.invocationId, s))))
  {
    hide Before;
    UpsertIsInsert(s, a);
    UpsertIsInsert(s, b);
    UpsertIsInsert(Upsert(s, a), b);
    SortOfSorted(s);
    SortOfSorted(Upsert(s, a));
    WithoutSorted(a.invocationId, s);
    WithoutInsert(b.invocationId, a, Without(a.invocationId, s));
    WithoutCommutes(a.invocationId, b.invocationId, s);
  }

  // ---------- Many upserts ----------

  lemma {:induction false} UpsertAllAppend(s: seq<Entry>, es: seq<Entry>, fs: seq<Entry>)
    ensures UpsertAll(s, es + fs) == UpsertAll(UpsertAll(s, es), fs)
    decreases fs
  {
    if fs == [] {
      assert es + fs == es;
    } else {
      assert (es + fs)[..|es + fs| - 1] == es + fs[..|fs| - 1];
      UpsertAllAppend(s, es, fs[..|fs| - 1]);
    }
  }

  lemma UpsertAllOne(s: seq<Entry>, e: Entry)
    ensures UpsertAll(s, [e]) == Upsert(s, e)
  {
    assert [e][..0] == [];
  }

  lemma {:induction false} UpsertAllSorted(s: seq<Entry>, es: seq<Entry>)
    requires Sorted(s)
    ensures Sorted(UpsertAll(s, es))
  {
    if es != [] {
      UpsertIsInsert(UpsertAll(s, es[..|es| - 1]), es[|es| - 1]);
    }
  }

  lemma {:induction false} UpsertAllFromSorted(s: seq<Entry>, es: seq<Entry>)
    requires es != []
    ensures UpsertAll(s, es) == UpsertAll(Sort(s), es)
  {
    var front, e := es[..|es| - 1], es[|es| - 1];
    if front == [] {
      UpsertIsInsert(s, e);
    } else {
      UpsertAllFromSorted(s, front);
    }
  }

  ghost predicate HasId(es: seq<Entry>, id: string) {
    exists i :: 0 <= i < |es| && es[i].invocationId == id
  }

  lemma HasIdLast(es: seq<Entry>, id: string)
    requires es != []
    ensures HasId(es, id) <==> HasId(es[..|es| - 1], id) || es[|es| - 1].invocationId == id
  {
    var front := es[..|es| - 1];
    assert forall i :: 0 <= i < |front| ==> front[i] == es[i];
  }

  /** An entry whose id comes again later leaves no trace. */
  lemma {:induction false} OverwrittenEntryVanishes(s: seq<Entry>, e: Entry, es: seq<Entry>)
    requires Sorted(s) && HasId(es, e.invocationId)
    ensures UpsertAll(Upsert(s, e), es) == UpsertAll(s, es)
  {
    var front, last := es[..|es| - 1], es[|es| - 1];
    HasIdLast(es, e.invocationId);
    hide Before, Sorted, HasId;
    if HasId(front, e.invocationId) {
      OverwrittenEntryVanishes(s, e, front);
    } else {
      MovePast(s, e, front);
      UpsertAllSorted(s, front);
      TwoUpserts(UpsertAll(s, front), e, last);
    }
  }

  lemma {:induction false} MovePast(s: seq<Entry>, e: Entry, es: seq<Entry>)
    requires Sorted(s) && !HasId(es, e.invocationId)
    ensures UpsertAll(Upsert(s, e), es) == Upsert(UpsertAll(s, es), e)
  {
    hide Before, Sorted, Upsert;
    if es != [] {
      var front, last := es[..|es| - 1], es[|es| - 1];
      HasIdLast(es, e.invocationId);
      MovePast(s, e, front);
      UpsertAllSorted(s, front);
      UpsertsCommute(UpsertAll(s, front), e, last);
    }
  }

  /** Entries all of whose ids come again later leave no trace. */
  lemma {:induction false} OverwrittenEntriesVanish(s: seq<Entry>, es: seq<Entry>, fs: seq<Entry>)
    requires Sorted(s) && forall i :: 0 <= i < |es| ==> HasId(fs, es[i].invocationId)
    ensures UpsertAll(s, es + fs) == UpsertAll(s, fs)
    decreases es
  {
    hide Before, Sorted, Upsert, HasId;
    UpsertAllAppend(s, es, fs);
    if es != [] {
      var front, last := es[..|es| - 1], es[|es| - 1];
      UpsertAllSorted(s, front);
      OverwrittenEntryVanishes(UpsertAll(s, front), last, fs);
      UpsertAllAppend(s, front, fs);
      OverwrittenEntriesVanish(s, front, fs);
    }
  }

  /** Upserting the same entries again changes nothing, repeated ids included. */
  lemma UpsertAllIdempotent(s: seq<Entry>, es: seq<Entry>)
    ensures UpsertAll(UpsertAll(s, es), es) == UpsertAll(s, es)
  {
    if es != [] {
      SortSorted(s);
      UpsertAllFromSorted(s, es);
      assert forall i :: 0 <= i < |es| ==> HasId(es, es[i].invocationId);
      OverwrittenEntriesVanish(Sort(s), es, es);
      UpsertAllAppend(Sort(s), es, es);
    }
  }

  // ---------- Order independence ----------

  ghost predicate DistinctIds(es: seq<Entry>) {
    forall i, j :: 0 <= i < j < |es| ==> es[i].invocationId != es[j].invocationId
  }

  /** Entries with distinct ids give the same list in every order. */
  lemma {:induction false} OrderIrrelevant(s: seq<Entry>, es: seq<Entry>, fs: seq<Entry>)
    requires Sorted(s) && DistinctIds(es) && DistinctIds(fs) && multiset(es) == multiset(fs)
    ensures UpsertAll(s, es) == UpsertAll(s, fs)
    decreases es
  {
    if es == [] {
      assert |multiset(fs)| == |multiset(es)| == 0;
      assert fs == [];
    } else {
      var last := es[|es| - 1];
      var k := FindEqual(es, |es| - 1, fs);
      var a, b := fs[..k], fs[k + 1..];
      assert fs == a + [last] + b;
      MoveToEnd(s, a, last, b);
      RestMatches(es, fs, k);
      OrderIrrelevant(s, es[..|es| - 1], a + b);
    }
  }

  lemma RestMatches(es: seq<Entry>, fs: seq<Entry>, k: nat)
    requires es != [] && k < |fs| && fs[k] == es[|es| - 1] && multiset(es) == multiset(fs)
    requires DistinctIds(es) && DistinctIds(fs)
    ensures var rest := fs[..k] + fs[k + 1..];
            multiset(es[..|es| - 1]) == multiset(rest) && DistinctIds(rest) && DistinctIds(es[..|es| - 1])
  {
    var last := es[|es| - 1];
    RestsMatch(es, |es| - 1, fs, k);
    DistinctWithout(es, |es| - 1);
    DistinctWithout(fs, k);
    hide DistinctIds;
    assert Removed(es, |es| - 1) == es[..|es| - 1];
  }

  lemma DistinctWithout(es: seq<Entry>, k: nat)
    requires k < |es| && DistinctIds(es)
    ensures DistinctIds(Removed(es, k))
  {
    var rest := Removed(es, k);
    assert forall i :: 0 <= i < |rest| ==> rest[i] == es[if i < k then i else i + 1];
  }

  lemma MoveToEnd(s: seq<Entry>, a: seq<Entry>, e: Entry, b: seq<Entry>)
    requires Sorted(s) && DistinctIds(a + [e] + b)
    ensures UpsertAll(s, a + [e] + b) == Upsert(UpsertAll(s, a + b), e)
  {
    var all := a + [e] + b;
    assert all[|a|] == e;
    assert !HasId(b, e.invocationId) by {
      assert forall i :: 0 <= i < |b| ==> b[i] == all[|a| + 1 + i];
    }
    hide Upsert, Before, DistinctIds;
    UpsertAllAppend(s, a + [e], b);
    UpsertAllAppend(s, a, [e]);
    UpsertAllOne(UpsertAll(s, a), e);
    UpsertAllAppend(s, a, b);
    UpsertAllSorted(s, a);
    MovePast(UpsertAll(s, a), e, b);
  }

  // ---------- Records ----------

  /** `_upsert_record` on one record file; None is a missing, unreadable or empty one. */
  function UpsertRecord(file: Option<Record>, taskId: string, e: Entry): Record {
    var invocations := Upsert(if file.Some? then file.value.invocations else [], e);
    UpsertIsInsert(if file.Some? then file.value.invocations else [], e);
    InsertMembers(e, Without(e.invocationId, Sort(if file.Some? then file.value.invocations else [])));
    var latest := invocations[|invocations| - 1];
    Record(taskId, if file.Some? then file.value.createdAt else e.endedAt, e.endedAt, invocations, |invocations|,
           latest.invocationId, latest.windowIndex, latest.status)
  }

  function UpsertRecords(file: Option<Record>, taskId: string, es: seq<Entry>): Option<Record> {
    if es == [] then file
    else Some(UpsertRecord(UpsertRecords(file, taskId, es[..|es| - 1]), taskId, es[|es| - 1]))
  }

  function ListOf(file: Option<Record>): seq<Entry> {
    if file.Some? then file.value.invocations else []
  }

  /** What the record says in closed form: the merged list and its last entry, the first creation time, the last update time. */
  lemma {:induction false} RecordOf(file: Option<Record>, taskId: string, es: seq<Entry>)
    requires es != []
    ensures var list := UpsertAll(ListOf(file), es);
            && list != []
            && UpsertRecords(file, taskId, es) ==
               Some(Record(taskId, if file.Some? then file.value.createdAt else es[0].endedAt, es[|es| - 1].endedAt, list, |list|,
                           list[|list| - 1].invocationId, list[|list| - 1].windowIndex, list[|list| - 1].status))
  {
    hide Before, Sort, Without;
    var front, e := es[..|es| - 1], es[|es| - 1];
    if front != [] {
      RecordOf(file, taskId, front);
    }
    UpsertIsInsert(UpsertAll(ListOf(file), front), e);
    InsertMembers(e, Without(e.invocationId, Sort(UpsertAll(ListOf(file), front))));
  }

  /** By rising window index, none counting as 0, within a window by rising end time, and within one end time by rising id. */
  ghost predicate RunsByWindow(list: seq<Entry>) {
    forall i, j :: 0 <= i < j < |list| ==>
      var a, b := list[i], list[j];
      var v, w := if a.windowIndex.Some? then a.windowIndex.value else 0, if b.windowIndex.Some? then b.windowIndex.value else 0;
      && v <= w
      && (v == w ==> !Less(b.endedAt, a.endedAt))
      && (v == w && a.endedAt == b.endedAt ==> !Less(b.invocationId, a.invocationId))
  }

  lemma SortedRunsByWindow(list: seq<Entry>)
    requires Sorted(list)
    ensures RunsByWindow(list)
  {
    hide Less;
    forall i, j | 0 <= i < j < |list| ensures !Before(list[j], list[i]) {
    }
  }

  /** After any upserts the list runs by window, and what the record calls its latest invocation is the last one, with the
      greatest window index. */
  lemma RecordRunsByWindow(file: Option<Record>, taskId: string, es: seq<Entry>)
    requires es != []
    ensures var r := UpsertRecords(file, taskId, es).value;
            && RunsByWindow(r.invocations) && r.invocations != []
            && var last := r.invocations[|r.invocations| - 1];
            && r.latestInvocationId == last.invocationId && r.latestWindowIndex == last.windowIndex && r.latestStatus == last.status
            && forall x :: x in r.invocations ==> (if x.windowIndex.Some? then x.windowIndex.value else 0)
                                                  <= if r.latestWindowIndex.Some? then r.latestWindowIndex.value else 0
  {
    var list := UpsertRecords(file, taskId, es).value.invocations;
    RecordOf(file, taskId, es);
    MergedList(ListOf(file), es);
    hide UpsertRecords, UpsertAll, Sorted;
    SortedRunsByWindow(list);
    forall x | x in list ensures Window(x) <= Window(list[|list| - 1]) {
      var i :| 0 <= i < |list| && list[i] == x;
    }
  }

  /** Rerunning all upserts of a task on the file they left changes nothing. */
  lemma RecordFixpoint(file: Option<Record>, taskId: string, es: seq<Entry>)
    ensures UpsertRecords(UpsertRecords(file, taskId, es), taskId, es) == UpsertRecords(file, taskId, es)
  {
    if es != [] {
      RerunRecord(file, taskId, es);
      hide UpsertRecords;
    }
  }

  lemma RerunRecord(file: Option<Record>, taskId: string, es: seq<Entry>)
    requires es != []
    ensures UpsertRecords(UpsertRecords(file, taskId, es), taskId, es) == UpsertRecords(file, taskId, es)
  {
    hide UpsertAll, UpsertRecords;
    RecordOf(file, taskId, es);
    RecordOf(UpsertRecords(file, taskId, es), taskId, es);
    UpsertAllIdempotent(ListOf(file), es);
  }

  /**
   Entries with distinct ids leave the same record in every order, up to the two times: the list, the
   count and the latest pointers always agree, and the whole record does exactly when the last entries
   ended at the same time and, for a new file, so did the first ones.
   */
  lemma RecordOrderIrrelevant(file: Option<Record>, taskId: string, es: seq<Entry>, fs: seq<Entry>)
    requires es != [] && DistinctIds(es) && DistinctIds(fs) && multiset(es) == multiset(fs)
    ensures fs != []
    ensures var r, q := UpsertRecords(file, taskId, es).value, UpsertRecords(file, taskId, fs).value;
            && q == r.(createdAt := q.createdAt, updatedAt := q.updatedAt)
            && (q == r <==> es[|es| - 1].endedAt == fs[|fs| - 1].endedAt && (file.Some? || es[0].endedAt == fs[0].endedAt))
  {
    hide *;
    var k := FindEqual(es, 0, fs);
    RecordOf(file, taskId, es);
    RecordOf(file, taskId, fs);
    SameLists(ListOf(file), es, fs);
  }

  lemma SameLists(s: seq<Entry>, es: seq<Entry>, fs: seq<Entry>)
    requires DistinctIds(es) && DistinctIds(fs) && multiset(es) == multiset(fs) && es != [] && fs != []
    ensures UpsertAll(s, es) == UpsertAll(s, fs)
  {
    hide *;
    SortSorted(s);
    UpsertAllFromSorted(s, es);
    UpsertAllFromSorted(s, fs);
    OrderIrrelevant(Sort(s), es, fs);
  }

  /** Two entries handled in either order: the lists agree, the update times do not. */
  lemma OrderCanChangeTimes(file: Option<Record>, taskId: string, a: Entry, b: Entry)
    requires a.invocationId != b.invocationId && a.endedAt != b.endedAt
    ensures var r, q := UpsertRecords(file, taskId, [a, b]).value, UpsertRecords(file, taskId, [b, a]).value;
            && r != q && r.updatedAt == b.endedAt && q.updatedAt == a.endedAt
            && r.invocations == q.invocations && r.latestInvocationId == q.latestInvocationId
  {
    var es, fs := [a, b], [b, a];
    assert multiset(es) == multiset(fs);
    RecordOrderIrrelevant(file, taskId, es, fs);
    RecordOf(file, taskId, es);
    RecordOf(file, taskId, fs);
    hide UpsertRecords, UpsertAll;
  }

  /** The last entry with an id. */
  function LastWith(es: seq<Entry>, id: string): Option<Entry> {
    if es == [] then None
    else if es[|es| - 1].invocationId == id then Some(es[|es| - 1])
    else LastWith(es[..|es| - 1], id)
  }

  /** The merged list is sorted and holds, for each id among the new entries, the last entry with it and nothing else, and of the old entries those with other ids. */
  lemma {:induction false} MergedList(s: seq<Entry>, es: seq<Entry>)
    ensures es != [] ==> Sorted(UpsertAll(s, es))
    ensures forall x :: x in UpsertAll(s, es) <==>
              LastWith(es, x.invocationId) == Some(x) || (LastWith(es, x.invocationId).None? && x in s)
  {
    if es != [] {
      var front, e := es[..|es| - 1], es[|es| - 1];
      var t := UpsertAll(s, front);
      MergedList(s, front);
      UpsertIsInsert(t, e);
      InsertMembers(e, Without(e.invocationId, Sort(t)));
      WithoutMembers(e.invocationId, Sort(t));
      SortMembers(t);
      hide Sorted, Before, Upsert, Sort, Without;
    }
  }

  /** No id occurs twice in a list whose old part has no repeats. */
  lemma {:induction false} MergedListDistinct(s: seq<Entry>, es: seq<Entry>)
    requires DistinctIds(s)
    ensures DistinctIds(UpsertAll(s, es))
  {
    if es != [] {
      var front, e := es[..|es| - 1], es[|es| - 1];
      var t := UpsertAll(s, front);
      MergedListDistinct(s, front);
      UpsertIsInsert(t, e);
      SortDistinct(t);
      WithoutDistinct(e.invocationId, Sort(t));
      WithoutMembers(e.invocationId, Sort(t));
      InsertDistinct(e, Without(e.invocationId, Sort(t)));
      hide *;
    }
  }

  lemma {:induction false} InsertDistinct(e: Entry, s: seq<Entry>)
    requires DistinctIds(s) && forall x :: x in s ==> x.invocationId != e.invocationId
    ensures DistinctIds(Insert(e, s))
  {
    hide Before;
    if s != [] && Before(e, s[|s| - 1]) {
      var front, last := s[..|s| - 1], s[|s| - 1];
      InsertDistinct(e, front);
      InsertMembers(e, front);
      var t := Insert(e, front);
      forall i | 0 <= i < |t| ensures t[i].invocationId != last.invocationId {
        assert t[i] in t;
      }
    }
  }

  lemma {:induction false} SortDistinct(s: seq<Entry>)
    requires DistinctIds(s)
    ensures DistinctIds(Sort(s))
  {
    if s != [] {
      var front, last := s[..|s| - 1], s[|s| - 1];
      SortDistinct(front);
      SortMembers(front);
      InsertDistinct(last, Sort(front));
    }
  }

  lemma {:induction false} WithoutDistinct(id: string, s: seq<Entry>)
    requires DistinctIds(s)
    ensures DistinctIds(Without(id, s))
  {
    if s != [] {
      var front, last := s[..|s| - 1], s[|s| - 1];
      WithoutDistinct(id, front);
      WithoutMembers(id, front);
      var t := Without(id, front);
      assert forall i :: 0 <= i < |t| ==> t[i] in t;
    }
  }

  // ---------- The whole workspace ----------

  /** A readable request file: ids and task id already defaulted and stripped. `noMessages` when it has no messages of its own
      and a body that is no dictionary to look for them in. */
  datatype Request = Request(invocationId: string, taskId: string, createdAt: string, noMessages: bool, body: Fields)

  /** The window index of a response: none or a falsy value, a number, or anything else. */
  datatype GivenWindow = NoWindow | At(index: int) | NoNumber

  datatype Response = Response(endedAt: string, window: GivenWindow, failed: bool, body: Fields)

  /** A response file that exists either parses to a dictionary or not. */
  datatype ResponseFile = Malformed | Loaded(response: Response)

  type Directory = map<string, Record>

  datatype IndexRow = IndexRow(taskId: string, invocationCount: int, latestInvocationId: string,
                               latestWindowIndex: Option<int>, latestStatus: string, updatedAt: string)

  datatype Index = Index(updatedAt: string, tasks: seq<IndexRow>)

  function EntryFor(q: Request, r: Option<Response>): Entry {
    match r
    case None => Entry(q.invocationId, q.taskId, None, q.createdAt, "ok", q.body)
    case Some(p) => Entry(q.invocationId, q.taskId, if p.window.At? then Some(p.window.index) else None, if p.endedAt != "" then p.endedAt else q.createdAt,
                          if p.failed then "error" else "ok", q.body + p.body)
  }

  /** What stops the whole run: a response that exists but cannot be read, a request without messages whose body is no
      dictionary, or a window index that is no number to sort by. */
  predicate Crashes(q: Option<Request>, responses: map<string, ResponseFile>) {
    && q.Some? && q.value.taskId != ""
    && (q.value.noMessages
        || (q.value.invocationId in responses
            && (responses[q.value.invocationId].Malformed? || responses[q.value.invocationId].response.window.NoNumber?)))
  }

  /** The entry of one request file, if it has a task. */
  function EntriesOf(q: Option<Request>, responses: map<string, ResponseFile>): seq<Entry>
    requires !Crashes(q, responses)
  {
    if q.None? || q.value.taskId == "" then []
    else [EntryFor(q.value, if q.value.invocationId in responses then Some(responses[q.value.invocationId].response) else None)]
  }

  /** The entries handled before the run ends, in file order. */
  function Entries(qs: seq<Option<Request>>, responses: map<string, ResponseFile>): seq<Entry> {
    if qs == [] || Crashes(qs[0], responses) then [] else EntriesOf(qs[0], responses) + Entries(qs[1..], responses)
  }

  predicate Completes(qs: seq<Option<Request>>, responses: map<string, ResponseFile>) {
    forall i :: 0 <= i < |qs| ==> !Crashes(qs[i], responses)
  }

  function FileOf(dir: Directory, taskId: string): Option<Record> {
    if taskId in dir then Some(dir[taskId]) else None
  }

  function RunDirectory(dir: Directory, es: seq<Entry>): Directory {
    if es == [] then dir
    else
      var before, e := RunDirectory(dir, es[..|es| - 1]), es[|es| - 1];
      before[e.taskId := UpsertRecord(FileOf(before, e.taskId), e.taskId, e)]
  }

  /** The task ids in order of first appearance. */
  function TasksSeen(es: seq<Entry>): seq<string> {
    if es == [] then []
    else
      var before, e := TasksSeen(es[..|es| - 1]), es[|es| - 1];
      if e.taskId in before then before else before + [e.taskId]
  }

  function RowOf(r: Record): IndexRow {
    IndexRow(r.taskId, r.invocationCount, r.latestInvocationId, r.latestWindowIndex, r.latestStatus, r.updatedAt)
  }

  /** The index lists the latest update first. */
  predicate Newer(a: IndexRow, b: IndexRow) {
    Less(b.updatedAt, a.updatedAt)
  }

  /** `sorted(..., reverse=True)`, which keeps rows with the same time in place. */
  function SortRows(rows: seq<IndexRow>): seq<IndexRow> {
    SortBy(rows, Newer)
  }

  /** The index holds exactly the rows, by falling update time, in order of appearance where times are the same. */
  lemma RowsSorted(rows: seq<IndexRow>) returns (ks: seq<nat>)
    ensures var tasks := IndexOf(rows).tasks;
            Arranges(ks, rows, tasks, Newer) && Ordered(tasks, Newer) && multiset(tasks) == multiset(rows)
    ensures forall i :: 0 <= i < |rows| ==> !Less(IndexOf(rows).updatedAt, rows[i].updatedAt)
  {
    forall a, b | Newer(a, b) ensures !Newer(b, a) {
      LessAsymmetric(b.updatedAt, a.updatedAt);
    }
    forall a, b, c | !Newer(a, b) && !Newer(b, c) ensures !Newer(a, c) {
      NotLessTransitive(c.updatedAt, b.updatedAt, a.updatedAt);
    }
    ks := SortByIsStable(rows, Newer);
    SortByContents(rows, Newer);
    hide SortBy;
    var tasks := SortRows(rows);
    forall i | 0 <= i < |rows| ensures !Less(tasks[0].updatedAt, rows[i].updatedAt) {
      assert i in ks;
      var a :| 0 <= a < |ks| && ks[a] == i;
      assert a > 0 ==> !Newer(tasks[a], tasks[0]);
      LessIrreflexive(tasks[0].updatedAt);
    }
  }

  lemma NotLessTransitive(a: string, b: string, c: string)
    requires !Less(a, b) && !Less(b, c)
    ensures !Less(a, c)
  {
    LessTotal(a, b);
    LessTotal(b, c);
    if Less(b, a) && Less(a, c) {
      LessTransitive(b, a, c);
    }
  }

  function IndexOf(rows: seq<IndexRow>): Index {
    var tasks := SortRows(rows);
    Index(if tasks != [] then tasks[0].updatedAt else "", tasks)
  }

  /** The index read off the directory after the run. */
  function Rows(dir: Directory, tasks: seq<string>): seq<IndexRow>
    requires forall i :: 0 <= i < |tasks| ==> tasks[i] in dir
  {
    seq(|tasks|, i requires 0 <= i < |tasks| => RowOf(dir[tasks[i]]))
  }

  function RowsByTask(index: map<string, IndexRow>, tasks: seq<string>): seq<IndexRow>
    requires forall i :: 0 <= i < |tasks| ==> tasks[i] in index
  {
    seq(|tasks|, i requires 0 <= i < |tasks| => index[tasks[i]])
  }

  /** The two output directories and the index written to both. */
  class Workspace {
    var stateOut: Directory
    var tmpOut: Directory
    var index: Option<Index>

    /** Stops, as the code does, at the first response that cannot be read. */
    method Rebuild(requests: seq<Option<Request>>, responses: map<string, ResponseFile>) returns (completed: bool)
      modifies this
      ensures completed == Completes(requests, responses)
      ensures stateOut == RunDirectory(old(stateOut), Entries(requests, responses))
      ensures tmpOut == RunDirectory(old(tmpOut), Entries(requests, responses))
      ensures completed ==>
                var tasks := TasksSeen(Entries(requests, responses));
                && (forall i :: 0 <= i < |tasks| ==> tasks[i] in tmpOut)
                && index == Some(IndexOf(Rows(tmpOut, tasks)))
                && Ordered(index.value.tasks, Newer) && multiset(index.value.tasks) == multiset(Rows(tmpOut, tasks))
      ensures !completed ==> index == old(index)
    {
      var taskIndex: map<string, IndexRow> := map[];
      var order: seq<string> := [];
      ghost var es: seq<Entry> := [];
      RunBegins(requests, responses);
      hide *;
      for k := 0 to |requests|
        invariant Handled(requests, responses, k, es)
        invariant stateOut == RunDirectory(old(stateOut), es) && tmpOut == RunDirectory(old(tmpOut), es)
        invariant order == TasksSeen(es)
        invariant Indexed(taskIndex, order, tmpOut)
        invariant index == old(index)
      {
        var request := requests[k];
        OneMoreRequest(requests, responses, k, es);
        if request.None? || request.value.taskId == "" {
          continue;
        }
        if Crashes(request, responses) {
          completed := false;
          return;
        }
        var entry := EntriesOf(request, responses)[0];
        assert EntriesOf(request, responses) == [entry];
        IndexOneMore(taskIndex, order, tmpOut, entry);
        RunOneMore(old(stateOut), es, entry);
        RunOneMore(old(tmpOut), es, entry);
        stateOut := stateOut[entry.taskId := UpsertRecord(FileOf(stateOut, entry.taskId), entry.taskId, entry)];
        tmpOut := tmpOut[entry.taskId := UpsertRecord(FileOf(tmpOut, entry.taskId), entry.taskId, entry)];
        taskIndex := taskIndex[entry.taskId := RowOf(tmpOut[entry.taskId])];
        order := if entry.taskId in order then order else order + [entry.taskId];
        es := es + [entry];
      }
      AllHandled(requests, responses, es);
      IndexIsRows(taskIndex, order, tmpOut);
      index := Some(IndexOf(RowsByTask(taskIndex, order)));
      ghost var ks := RowsSorted(RowsByTask(taskIndex, order));
      completed := true;
    }
  }

  /** The first `k` request files were handled without a crash and gave the entries `es`. */
  ghost predicate Handled(qs: seq<Option<Request>>, responses: map<string, ResponseFile>, k: nat, es: seq<Entry>) {
    k <= |qs| && Completes(qs[..k], responses) && es + Entries(qs[k..], responses) == Entries(qs, responses)
  }

  lemma RunBegins(qs: seq<Option<Request>>, responses: map<string, ResponseFile>)
    ensures Handled(qs, responses, 0, []) && Indexed(map[], [], map[]) && TasksSeen([]) == []
    ensures forall dir :: RunDirectory(dir, []) == dir
    ensures forall dir :: Indexed(map[], [], dir)
  {
    assert qs[0..] == qs;
  }

  lemma OneMoreRequest(qs: seq<Option<Request>>, responses: map<string, ResponseFile>, k: nat, es: seq<Entry>)
    requires k < |qs| && Handled(qs, responses, k, es)
    ensures Crashes(qs[k], responses) ==>
              !Completes(qs, responses) && Entries(qs, responses) == es && qs[k].Some? && qs[k].value.taskId != ""
    ensures !Crashes(qs[k], responses) ==> Handled(qs, responses, k + 1, es + EntriesOf(qs[k], responses))
    ensures !Crashes(qs[k], responses) && (qs[k].None? || qs[k].value.taskId == "") ==> Handled(qs, responses, k + 1, es)
    ensures !Crashes(qs[k], responses) && qs[k].Some? && qs[k].value.taskId != "" ==> |EntriesOf(qs[k], responses)| == 1
  {
    hide *;
    if Crashes(qs[k], responses) {
      NeedsTask(qs[k], responses);
      RunStops(qs, responses, k, es);
    } else {
      OneEntry(qs[k], responses);
      RunGoesOn(qs, responses, k, es);
      assert es + [] == es;
    }
  }

  lemma RunStops(qs: seq<Option<Request>>, responses: map<string, ResponseFile>, k: nat, es: seq<Entry>)
    requires k < |qs| && Handled(qs, responses, k, es) && Crashes(qs[k], responses)
    ensures !Completes(qs, responses) && Entries(qs, responses) == es
  {
    EntriesStep(qs, responses, k);
    CompletesStep(qs, responses, k);
    hide Crashes, Entries, Completes;
    assert es + [] == es;
  }

  lemma RunGoesOn(qs: seq<Option<Request>>, responses: map<string, ResponseFile>, k: nat, es: seq<Entry>)
    requires k < |qs| && Handled(qs, responses, k, es) && !Crashes(qs[k], responses)
    ensures Handled(qs, responses, k + 1, es + EntriesOf(qs[k], responses))
  {
    EntriesStep(qs, responses, k);
    CompletesStep(qs, responses, k);
    var more, rest := EntriesOf(qs[k], responses), Entries(qs[k + 1..], responses);
    hide Crashes, Entries, Completes, EntriesOf;
    assert es + more + rest == es + (more + rest);
  }

  lemma OneEntry(q: Option<Request>, responses: map<string, ResponseFile>)
    requires !Crashes(q, responses)
    ensures if q.None? || q.value.taskId == "" then EntriesOf(q, responses) == [] else |EntriesOf(q, responses)| == 1
  {
    hide EntryFor;
  }

  lemma EntriesStep(qs: seq<Option<Request>>, responses: map<string, ResponseFile>, k: nat)
    requires k < |qs|
    ensures Entries(qs[k..], responses)
            == if Crashes(qs[k], responses) then [] else EntriesOf(qs[k], responses) + Entries(qs[k + 1..], responses)
  {
    hide Crashes, EntriesOf;
    var rest := qs[k..];
    assert rest[0] == qs[k] && rest[1..] == qs[k + 1..];
  }

  lemma CompletesStep(qs: seq<Option<Request>>, responses: map<string, ResponseFile>, k: nat)
    requires k < |qs|
    ensures Completes(qs[..k + 1], responses) <==> Completes(qs[..k], responses) && !Crashes(qs[k], responses)
    ensures Crashes(qs[k], responses) ==> !Completes(qs, responses)
  {
    hide Crashes;
    assert qs[..k + 1] == qs[..k] + [qs[k]];
  }

  lemma NeedsTask(q: Option<Request>, responses: map<string, ResponseFile>)
    requires Crashes(q, responses)
    ensures q.Some? && q.value.taskId != ""
  {
  }

  lemma AllHandled(qs: seq<Option<Request>>, responses: map<string, ResponseFile>, es: seq<Entry>)
    requires Handled(qs, responses, |qs|, es)
    ensures Completes(qs, responses) && Entries(qs, responses) == es
  {
    hide Crashes;
    assert qs[..|qs|] == qs && qs[|qs|..] == [];
    assert es + [] == es;
  }

  lemma RunOneMore(dir: Directory, es: seq<Entry>, e: Entry)
    ensures var before := RunDirectory(dir, es);
            RunDirectory(dir, es + [e]) == before[e.taskId := UpsertRecord(FileOf(before, e.taskId), e.taskId, e)]
    ensures TasksSeen(es + [e]) == if e.taskId in TasksSeen(es) then TasksSeen(es) else TasksSeen(es) + [e.taskId]
  {
    assert (es + [e])[..|es|] == es;
    hide UpsertRecord;
  }

  lemma IndexIsRows(index: map<string, IndexRow>, order: seq<string>, dir: Directory)
    requires Indexed(index, order, dir)
    ensures forall i :: 0 <= i < |order| ==> order[i] in index && order[i] in dir
    ensures RowsByTask(index, order) == Rows(dir, order)
  {
    hide RowOf;
  }

  /** The task index holds the current record of every task seen. */
  ghost predicate Indexed(index: map<string, IndexRow>, order: seq<string>, dir: Directory) {
    forall i :: 0 <= i < |order| ==> order[i] in index && order[i] in dir && index[order[i]] == RowOf(dir[order[i]])
  }

  lemma IndexOneMore(index: map<string, IndexRow>, order: seq<string>, dir: Directory, e: Entry)
    requires Indexed(index, order, dir)
    ensures var record := UpsertRecord(FileOf(dir, e.taskId), e.taskId, e);
            var more := index[e.taskId := RowOf(record)];
            && Indexed(more, order, dir[e.taskId := record])
            && Indexed(more, order + [e.taskId], dir[e.taskId := record])
  {
    hide UpsertRecord, RowOf;
  }

  /** The entries of one task, in order. */
  function OfTask(es: seq<Entry>, taskId: string): seq<Entry> {
    if es == [] then []
    else OfTask(es[..|es| - 1], taskId) + (if es[|es| - 1].taskId == taskId then [es[|es| - 1]] else [])
  }

  /** Each task's file depends only on what it was and on that task's own entries. */
  lemma {:induction false} FileAfterRun(dir: Directory, es: seq<Entry>, taskId: string)
    ensures FileOf(RunDirectory(dir, es), taskId) == UpsertRecords(FileOf(dir, taskId), taskId, OfTask(es, taskId))
  {
    if es != [] {
      var front, e := es[..|es| - 1], es[|es| - 1];
      FileAfterRun(dir, front, taskId);
      var own := OfTask(front, taskId);
      assert (own + [e])[..|own|] == own && own + [] == own;
      hide UpsertRecord;
    }
  }

  /** Running again over unchanged request and response files leaves every record, in both directories, unchanged, and with it the index. */
  lemma RebuildFixpoint(dir: Directory, requests: seq<Option<Request>>, responses: map<string, ResponseFile>)
    ensures var es := Entries(requests, responses);
            RunDirectory(RunDirectory(dir, es), es) == RunDirectory(dir, es)
  {
    var es := Entries(requests, responses);
    var once := RunDirectory(dir, es);
    var twice := RunDirectory(once, es);
    var t := MapsDiffer(once, twice, "");
    FileAfterRun(dir, es, t);
    FileAfterRun(once, es, t);
    RecordFixpoint(FileOf(dir, t), t, OfTask(es, t));
  }

  // ---------- What a run handles and reports ----------

  /** A request file that leads to an entry: it names a task and nothing about it stops the run. */
  ghost predicate LeadsToEntry(q: Option<Request>, responses: map<string, ResponseFile>) {
    && q.Some? && q.value.taskId != "" && !q.value.noMessages
    && (q.value.invocationId in responses ==>
          exists p :: responses[q.value.invocationId] == Loaded(p) && (p.window == NoWindow || exists n :: p.window == At(n)))
  }

  /** A request file that is passed over: unreadable or without a task. */
  ghost predicate PassedOver(q: Option<Request>) {
    q == None || q.value.taskId == ""
  }

  /** What the entry of a request file says. */
  ghost predicate Describes(e: Entry, q: Request, responses: map<string, ResponseFile>) {
    && e.invocationId == q.invocationId && e.taskId == q.taskId
    && if q.invocationId !in responses then e.windowIndex == None && e.status == "ok" && e.endedAt == q.createdAt && e.body == q.body
       else exists p :: responses[q.invocationId] == Loaded(p)
                        && (forall n :: e.windowIndex == Some(n) <==> p.window == At(n))
                        && (if p.failed then e.status == "error" else e.status == "ok")
                        && (if p.endedAt == "" then e.endedAt == q.createdAt else e.endedAt == p.endedAt)
                        && e.body == q.body + p.body
  }

  /** The file leads to this entry. */
  ghost predicate Gives(q: Option<Request>, responses: map<string, ResponseFile>, e: Entry) {
    LeadsToEntry(q, responses) && Describes(e, q.value, responses)
  }

  lemma RequestIs(q: Option<Request>, responses: map<string, ResponseFile>)
    ensures Crashes(q, responses) <==> !PassedOver(q) && !LeadsToEntry(q, responses)
    ensures LeadsToEntry(q, responses) ==> |EntriesOf(q, responses)| == 1 && Gives(q, responses, EntriesOf(q, responses)[0])
    ensures PassedOver(q) ==> EntriesOf(q, responses) == []
  {
    if q.Some? && q.value.invocationId in responses && responses[q.value.invocationId].Loaded? {
      var p := responses[q.value.invocationId].response;
      assert responses[q.value.invocationId] == Loaded(p);
      assert p.window.At? ==> p.window == At(p.window.index);
    }
  }

  /** `ks` are the files that lead to the entries `es`, up to the first that does neither. */
  ghost predicate Handles(qs: seq<Option<Request>>, responses: map<string, ResponseFile>, ks: seq<nat>, es: seq<Entry>) {
    && Paired(qs, responses, ks, es)
    && forall k :: 0 <= k < |qs| ==> (k in ks <==> LeadsToEntry(qs[k], responses) && NoStop(qs, responses, k))
  }

  ghost predicate NoStop(qs: seq<Option<Request>>, responses: map<string, ResponseFile>, k: nat)
    requires k <= |qs|
  {
    forall j :: 0 <= j < k ==> PassedOver(qs[j]) || LeadsToEntry(qs[j], responses)
  }

  lemma NoStopStep(qs: seq<Option<Request>>, responses: map<string, ResponseFile>, k: nat)
    requires 0 < k <= |qs|
    ensures NoStop(qs, responses, k) <==> (PassedOver(qs[0]) || LeadsToEntry(qs[0], responses)) && NoStop(qs[1..], responses, k - 1)
  {
    hide PassedOver, LeadsToEntry;
    if (PassedOver(qs[0]) || LeadsToEntry(qs[0], responses)) && NoStop(qs[1..], responses, k - 1) {
      forall j | 0 <= j < k ensures PassedOver(qs[j]) || LeadsToEntry(qs[j], responses) {
        assert j > 0 ==> qs[j] == qs[1..][j - 1];
      }
    }
    if NoStop(qs, responses, k) {
      forall j | 0 <= j < k - 1 ensures PassedOver(qs[1..][j]) || LeadsToEntry(qs[1..][j], responses) {
        assert qs[1..][j] == qs[j + 1];
      }
    }
  }

  function Shifted(ks: seq<nat>): (ms: seq<nat>)
    ensures |ms| == |ks| && forall i :: 0 <= i < |ks| ==> ms[i] == ks[i] + 1
  {
    seq(|ks|, i requires 0 <= i < |ks| => ks[i] + 1)
  }

  lemma InShifted(ks: seq<nat>, k: nat)
    ensures k in Shifted(ks) <==> k > 0 && k - 1 in ks
  {
    if k > 0 && k - 1 in ks {
      var i :| 0 <= i < |ks| && ks[i] == k - 1;
      assert Shifted(ks)[i] == k;
    }
  }

  /** The pairs of file and entry, and their order. */
  ghost predicate Paired(qs: seq<Option<Request>>, responses: map<string, ResponseFile>, ks: seq<nat>, es: seq<Entry>) {
    && |ks| == |es|
    && (forall i :: 0 <= i < |ks| ==> ks[i] < |qs| && Gives(qs[ks[i]], responses, es[i]))
    && (forall i, j :: 0 <= i < j < |ks| ==> ks[i] < ks[j])
  }

  lemma PairedLater(qs: seq<Option<Request>>, responses: map<string, ResponseFile>, ks: seq<nat>, es: seq<Entry>)
    requires qs != [] && Paired(qs[1..], responses, ks, es)
    ensures Paired(qs, responses, Shifted(ks), es)
  {
    hide Gives;
    assert forall k :: 0 <= k < |qs[1..]| ==> qs[1..][k] == qs[k + 1];
  }

  lemma PairedFirst(qs: seq<Option<Request>>, responses: map<string, ResponseFile>, ks: seq<nat>, es: seq<Entry>, e: Entry)
    requires qs != [] && Paired(qs, responses, Shifted(ks), es) && Gives(qs[0], responses, e)
    ensures Paired(qs, responses, [0] + Shifted(ks), [e] + es)
  {
    hide Gives;
  }

  lemma HandlesOneMore(qs: seq<Option<Request>>, responses: map<string, ResponseFile>, ks: seq<nat>, es: seq<Entry>, es0: seq<Entry>)
    requires qs != [] && Handles(qs[1..], responses, ks, es) && (PassedOver(qs[0]) || LeadsToEntry(qs[0], responses))
    requires if PassedOver(qs[0]) then es0 == [] else |es0| == 1 && Gives(qs[0], responses, es0[0])
    ensures Handles(qs, responses, (if PassedOver(qs[0]) then [] else [0]) + Shifted(ks), es0 + es)
  {
    MembersOneMore(qs, responses, ks);
    hide PassedOver, LeadsToEntry, Gives, NoStop, Paired;
    PairedLater(qs, responses, ks, es);
    if PassedOver(qs[0]) {
      assert [] + Shifted(ks) == Shifted(ks) && es0 + es == es;
    } else {
      PairedFirst(qs, responses, ks, es, es0[0]);
      assert es0 == [es0[0]];
    }
  }

  lemma MembersOneMore(qs: seq<Option<Request>>, responses: map<string, ResponseFile>, ks: seq<nat>)
    requires qs != [] && (PassedOver(qs[0]) || LeadsToEntry(qs[0], responses))
    requires forall k :: 0 <= k < |qs[1..]| ==> (k in ks <==> LeadsToEntry(qs[1..][k], responses) && NoStop(qs[1..], responses, k))
    ensures var ms := (if PassedOver(qs[0]) then [] else [0]) + Shifted(ks);
            forall k :: 0 <= k < |qs| ==> (k in ms <==> LeadsToEntry(qs[k], responses) && NoStop(qs, responses, k))
  {
    var ms := (if PassedOver(qs[0]) then [] else [0]) + Shifted(ks);
    NotBoth(qs[0], responses);
    NothingBefore(qs, responses);
    hide PassedOver, LeadsToEntry, NoStop;
    forall k | 0 <= k < |qs| ensures k in ms <==> LeadsToEntry(qs[k], responses) && NoStop(qs, responses, k) {
      InShifted(ks, k);
      if k > 0 {
        NoStopStep(qs, responses, k);
        assert qs[k] == qs[1..][k - 1];
      }
    }
  }

  lemma NothingBefore(qs: seq<Option<Request>>, responses: map<string, ResponseFile>)
    ensures NoStop(qs, responses, 0)
  {
  }

  lemma NotBoth(q: Option<Request>, responses: map<string, ResponseFile>)
    ensures !(PassedOver(q) && LeadsToEntry(q, responses))
  {
  }

  lemma HandlesNone(qs: seq<Option<Request>>, responses: map<string, ResponseFile>)
    requires qs != [] ==> !PassedOver(qs[0]) && !LeadsToEntry(qs[0], responses)
    ensures Handles(qs, responses, [], [])
  {
    hide LeadsToEntry, PassedOver;
    forall k | 0 <= k < |qs| ensures !(LeadsToEntry(qs[k], responses) && NoStop(qs, responses, k)) {
    }
  }

  /** The run completes exactly when every request file is passed over or leads to an entry; its entries are those of the files
      that do, up to the first that does neither, in order. */
  lemma {:induction false} EntriesAreDescribed(qs: seq<Option<Request>>, responses: map<string, ResponseFile>) returns (ks: seq<nat>)
    ensures Completes(qs, responses) <==> NoStop(qs, responses, |qs|)
    ensures Handles(qs, responses, ks, Entries(qs, responses))
  {
    if qs == [] {
      ks := [];
    } else {
      var q, rest := qs[0], qs[1..];
      RequestIs(q, responses);
      NoStopStep(qs, responses, |qs|);
      CompletesFirst(qs, responses);
      if Crashes(q, responses) {
        ks := [];
        HandlesNone(qs, responses);
      } else {
        var ms := EntriesAreDescribed(rest, responses);
        ks := (if PassedOver(q) then [] else [0]) + Shifted(ms);
        NotBoth(q, responses);
        hide Crashes, EntriesOf, Gives, LeadsToEntry, PassedOver, Completes, NoStop, Handles;
        HandlesOneMore(qs, responses, ms, Entries(rest, responses), EntriesOf(q, responses));
      }
      hide Crashes, EntriesOf, Gives, LeadsToEntry, PassedOver, Completes, NoStop, Handles;
    }
  }

  lemma CompletesFirst(qs: seq<Option<Request>>, responses: map<string, ResponseFile>)
    requires qs != []
    ensures Completes(qs, responses) <==> !Crashes(qs[0], responses) && Completes(qs[1..], responses)
  {
    hide Crashes;
    if !Crashes(qs[0], responses) && Completes(qs[1..], responses) {
      forall i | 0 <= i < |qs| ensures !Crashes(qs[i], responses) {
        assert i > 0 ==> qs[i] == qs[1..][i - 1];
      }
    }
    if Completes(qs, responses) {
      forall i | 0 <= i < |qs[1..]| ensures !Crashes(qs[1..][i], responses) {
        assert qs[1..][i] == qs[i + 1];
      }
    }
  }

  /** Each row of the index tells of one task seen: how many invocations its record lists, which is the last of them, and when
      the task's last entry ended. */
  lemma RowsTell(dir: Directory, es: seq<Entry>, taskId: string)
    requires taskId in TasksSeen(es) && taskId in RunDirectory(dir, es)
    ensures var r, own := RunDirectory(dir, es)[taskId], OfTask(es, taskId);
            var row := RowOf(r);
            && own != [] && r.invocations != []
            && row.taskId == taskId && row.invocationCount == |r.invocations| && row.updatedAt == own[|own| - 1].endedAt
            && var last := r.invocations[|r.invocations| - 1];
            && row.latestInvocationId == last.invocationId && row.latestWindowIndex == last.windowIndex && row.latestStatus == last.status
  {
    FileAfterRun(dir, es, taskId);
    SeenHasEntries(es, taskId);
    var own := OfTask(es, taskId);
    RecordOf(FileOf(dir, taskId), taskId, own);
    hide UpsertRecords, UpsertAll, OfTask, RunDirectory;
  }

  lemma {:induction false} SeenHasEntries(es: seq<Entry>, taskId: string)
    ensures taskId in TasksSeen(es) <==> OfTask(es, taskId) != []
  {
    if es != [] {
      SeenHasEntries(es[..|es| - 1], taskId);
    }
  }

  /** Without any task the index is empty and has no time. */
  lemma NoRowsNoTime()
    ensures IndexOf([]) == Index("", [])
  {
  }
}
