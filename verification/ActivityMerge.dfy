/** Merging pages of agent activity: for each activity the newest event, newest first. */
module ActivityMerge {

  datatype Activity = Activity(sequence: int, id: string, details: string)

  /** The map entry for the identifier, or -1. */
  function Position(entries: seq<Activity>, id: string): (k: int)
    ensures -1 <= k < |entries|
    ensures k >= 0 ==> entries[k].id == id
    ensures k < 0 ==> forall e :: e in entries ==> e.id != id
  {
    if entries == [] then -1
    else if entries[|entries| - 1].id == id then |entries| - 1
    else Position(entries[..|entries| - 1], id)
  }

  function SetEntry(entries: seq<Activity>, item: Activity): seq<Activity> {
    var k := Position(entries, item.id);
    if k < 0 then entries + [item] else entries[k := item]
  }

  function FromList(current: seq<Activity>): seq<Activity> {
    if current == [] then [] else SetEntry(FromList(current[..|current| - 1]), current[|current| - 1])
  }

  function Update(entries: seq<Activity>, item: Activity): seq<Activity> {
    var k := Position(entries, item.id);
    if k < 0 || item.sequence > entries[k].sequence then SetEntry(entries, item) else entries
  }

  function UpdateAll(entries: seq<Activity>, incoming: seq<Activity>): seq<Activity> {
    if incoming == [] then entries
    else Update(UpdateAll(entries, incoming[..|incoming| - 1]), incoming[|incoming| - 1])
  }

  function InsertNewestFirst(sorted: seq<Activity>, item: Activity): seq<Activity> {
    if sorted == [] then [item]
    else if item.sequence > sorted[0].sequence then [item] + sorted
    else [sorted[0]] + InsertNewestFirst(sorted[1..], item)
  }

  function NewestFirst(entries: seq<Activity>): seq<Activity> {
    if entries == [] then []
    else InsertNewestFirst(NewestFirst(entries[..|entries| - 1]), entries[|entries| - 1])
  }

  function Merge(current: seq<Activity>, incoming: seq<Activity>): seq<Activity> {
    NewestFirst(UpdateAll(FromList(current), incoming))
  }

  method MergeAgentActivity(current: seq<Activity>, incoming: seq<Activity>) returns (merged: seq<Activity>)
    ensures merged == Merge(current, incoming)
  {
    hide NewestFirst, FromList;
    var byId := FromList(current);
    for i := 0 to |incoming|
      invariant byId == UpdateAll(FromList(current), incoming[..i])
    {
      assert incoming[..i + 1][..i] == incoming[..i];
      var previous := Position(byId, incoming[i].id);
      if previous < 0 || incoming[i].sequence > byId[previous].sequence {
        byId := SetEntry(byId, incoming[i]);
      }
    }
    assert incoming[..|incoming|] == incoming;
    merged := NewestFirst(byId);
  }

  // ----- What a merge means -----

  ghost predicate DistinctIds(entries: seq<Activity>) {
    forall i, j :: 0 <= i < j < |entries| ==> entries[i].id != entries[j].id
  }

  ghost predicate NewestOf(e: Activity, events: set<Activity>) {
    e in events && forall f :: f in events && f.id == e.id ==> f.sequence <= e.sequence
  }

  /** A sequence number identifies its event. */
  ghost predicate Numbered(events: set<Activity>) {
    forall e, f :: e in events && f in events && e.sequence == f.sequence ==> e == f
  }

  function Events(page: seq<Activity>): set<Activity> {
    set e | e in page
  }

  /** One entry for each identifier: its newest event. */
  ghost predicate Newest(entries: seq<Activity>, events: set<Activity>) {
    DistinctIds(entries) && forall e :: e in entries <==> NewestOf(e, events)
  }

  /** The list to show: the newest event of each identifier, strictly descending by sequence. */
  ghost predicate Shown(list: seq<Activity>, events: set<Activity>) {
    && (forall i, j :: 0 <= i < j < |list| ==> list[i].sequence > list[j].sequence)
    && forall e :: e in list <==> NewestOf(e, events)
  }

  /** What is known of an activity is replaced by a greater sequence number only. */
  lemma TieKeepsKnown(entries: seq<Activity>, item: Activity)
    requires DistinctIds(entries)
    ensures forall e :: e in entries && e.id == item.id && item.sequence <= e.sequence ==> Update(entries, item) == entries
    ensures (forall e :: e in entries && e.id == item.id ==> e.sequence < item.sequence) ==> item in Update(entries, item)
  {
    var k := Position(entries, item.id);
    forall e | e in entries && e.id == item.id ensures k >= 0 && e == entries[k] {
      var i :| 0 <= i < |entries| && entries[i] == e;
    }
    SetEntryMeaning(entries, item);
    if k >= 0 {
      assert entries[k] in entries;
    }
  }

  lemma SetEntryMeaning(entries: seq<Activity>, item: Activity)
    requires DistinctIds(entries)
    ensures DistinctIds(SetEntry(entries, item))
    ensures forall e :: e in SetEntry(entries, item) <==> e == item || (e in entries && e.id != item.id)
  {
    var k := Position(entries, item.id);
    var after := SetEntry(entries, item);
    if k >= 0 {
      assert after[k] == item;
      forall e | e in entries && e.id != item.id ensures e in after {
        var i :| 0 <= i < |entries| && entries[i] == e;
        assert after[i] == e;
      }
    }
  }

  lemma UpdateMeaning(entries: seq<Activity>, item: Activity, events: set<Activity>)
    requires Newest(entries, events) && Numbered(events + {item})
    ensures Newest(Update(entries, item), events + {item})
  {
    var all := events + {item};
    var k := Position(entries, item.id);
    var after := Update(entries, item);
    SetEntryMeaning(entries, item);
    if k < 0 {
      forall f | f in events ensures f.id != item.id {
        NewestExists(entries, events, f);
      }
    } else {
      assert NewestOf(entries[k], events);
    }
    forall e ensures e in after <==> NewestOf(e, all) {
      if e.id != item.id {
        assert NewestOf(e, all) <==> NewestOf(e, events);
      } else if k >= 0 {
        assert NewestOf(e, all) <==> e == if item.sequence > entries[k].sequence then item else entries[k];
      }
    }
  }

  /** Every event has a newest one beside it. */
  lemma NewestExists(entries: seq<Activity>, events: set<Activity>, f: Activity)
    requires Newest(entries, events) && f in events
    ensures exists g :: g in entries && g.id == f.id && f.sequence <= g.sequence
  {
    var these := set e | e in events && e.id == f.id;
    assert f in these;
    var top := Greatest(these);
    assert NewestOf(top, events);
  }

  lemma {:induction false} Greatest(events: set<Activity>) returns (top: Activity)
    requires events != {}
    ensures top in events && forall e :: e in events ==> e.sequence <= top.sequence
    decreases |events|
  {
    top :| top in events;
    var rest := events - {top};
    if rest != {} {
      var other := Greatest(rest);
      if other.sequence > top.sequence {
        top := other;
      }
    }
  }

  lemma {:induction false} UpdateAllMeaning(entries: seq<Activity>, incoming: seq<Activity>, events: set<Activity>)
    requires Newest(entries, events) && Numbered(events + Events(incoming))
    ensures Newest(UpdateAll(entries, incoming), events + Events(incoming))
  {
    if incoming == [] {
      assert events + Events(incoming) == events;
    } else {
      var n := |incoming| - 1;
      assert incoming == incoming[..n] + [incoming[n]];
      assert events + Events(incoming) == events + Events(incoming[..n]) + {incoming[n]};
      UpdateAllMeaning(entries, incoming[..n], events);
      UpdateMeaning(UpdateAll(entries, incoming[..n]), incoming[n], events + Events(incoming[..n]));
    }
  }

  lemma {:induction false} FromListSame(current: seq<Activity>)
    requires DistinctIds(current)
    ensures FromList(current) == current
  {
    hide SetEntry;
    if current != [] {
      var n := |current| - 1;
      FromListSame(current[..n]);
      assert current == current[..n] + [current[n]];
      SetNewEntry(current[..n], current[n]);
    }
  }

  lemma SetNewEntry(entries: seq<Activity>, item: Activity)
    requires forall i :: 0 <= i < |entries| ==> entries[i].id != item.id
    ensures SetEntry(entries, item) == entries + [item]
  {
  }

  ghost predicate Descending(list: seq<Activity>) {
    forall i, j :: 0 <= i < j < |list| ==> list[i].sequence > list[j].sequence
  }

  lemma PrependDescending(first: Activity, rest: seq<Activity>)
    ensures Descending([first] + rest) <==> Descending(rest) && forall e :: e in rest ==> first.sequence > e.sequence
  {
    var all := [first] + rest;
    assert forall i :: 0 <= i < |rest| ==> rest[i] == all[i + 1];
    if Descending(all) {
      forall e | e in rest ensures first.sequence > e.sequence {
        var i :| 0 <= i < |rest| && rest[i] == e;
        assert all[0].sequence > all[i + 1].sequence;
      }
    }
  }

  lemma {:induction false} InsertMeaning(sorted: seq<Activity>, item: Activity)
    requires Descending(sorted) && forall e :: e in sorted ==> e.sequence != item.sequence
    ensures Descending(InsertNewestFirst(sorted, item))
    ensures forall e :: e in InsertNewestFirst(sorted, item) <==> e == item || e in sorted
  {
    hide Descending;
    PrependDescending(item, sorted);
    if sorted == [] {
      assert [item] + [] == [item];
    } else {
      var rest := sorted[1..];
      assert sorted == [sorted[0]] + rest;
      PrependDescending(sorted[0], rest);
      if item.sequence < sorted[0].sequence {
        InsertMeaning(rest, item);
        PrependDescending(sorted[0], InsertNewestFirst(rest, item));
      }
    }
  }

  lemma {:induction false} SortMeaning(entries: seq<Activity>)
    requires forall i, j :: 0 <= i < j < |entries| ==> entries[i].sequence != entries[j].sequence
    ensures Descending(NewestFirst(entries))
    ensures forall e :: e in NewestFirst(entries) <==> e in entries
  {
    if entries != [] {
      var n := |entries| - 1;
      SortMeaning(entries[..n]);
      assert entries == entries[..n] + [entries[n]];
      InsertMeaning(NewestFirst(entries[..n]), entries[n]);
    }
  }

  /** Merging a page into a shown list shows the newest event of each identifier among both. */
  lemma MergeMeaning(current: seq<Activity>, incoming: seq<Activity>, events: set<Activity>)
    requires Shown(current, events) && Numbered(events + Events(incoming))
    ensures Shown(Merge(current, incoming), events + Events(incoming))
  {
    hide NewestFirst, UpdateAll, FromList;
    var all := events + Events(incoming);
    ShownDistinct(current, events);
    FromListSame(current);
    UpdateAllMeaning(current, incoming, events);
    var entries := UpdateAll(current, incoming);
    forall i, j | 0 <= i < j < |entries| ensures entries[i].sequence != entries[j].sequence {
      assert NewestOf(entries[i], all) && NewestOf(entries[j], all);
    }
    SortMeaning(entries);
  }

  lemma ShownDistinct(list: seq<Activity>, events: set<Activity>)
    requires Shown(list, events)
    ensures Newest(list, events)
  {
    forall i, j | 0 <= i < j < |list| ensures list[i].id != list[j].id {
      assert NewestOf(list[i], events) && NewestOf(list[j], events);
    }
  }

  /** There is only one list to show. */
  lemma {:induction false} ShownIsUnique(a: seq<Activity>, b: seq<Activity>)
    requires Descending(a) && Descending(b) && forall e :: e in a <==> e in b
    ensures a == b
  {
    if a == [] {
      assert forall k :: 0 <= k < |b| ==> b[k] in a;
    } else {
      assert a[0] in b;
      assert a == [a[0]] + a[1..] && b == [b[0]] + b[1..];
      PrependDescending(a[0], a[1..]);
      PrependDescending(b[0], b[1..]);
      assert b[0] in a;
      assert forall e :: e in a[1..] <==> e in a && e != a[0];
      assert forall e :: e in b[1..] <==> e in b && e != b[0];
      ShownIsUnique(a[1..], b[1..]);
    }
  }

  // ----- Pages in any order, grouping and repetition -----

  datatype Plan = Page(events: seq<Activity>) | Both(first: Plan, second: Plan)

  function PlanEvents(plan: Plan): set<Activity> {
    match plan
    case Page(events) => Events(events)
    case Both(first, second) => PlanEvents(first) + PlanEvents(second)
  }

  /** Pages merged into an empty list, and results merged with each other. */
  function Carry(plan: Plan): seq<Activity> {
    match plan
    case Page(events) => Merge([], events)
    case Both(first, second) => Merge(Carry(first), Carry(second))
  }

  lemma {:induction false} CarryMeaning(plan: Plan)
    requires Numbered(PlanEvents(plan))
    ensures Shown(Carry(plan), PlanEvents(plan))
  {
    hide Merge, Shown, Newest, NewestOf;
    match plan
    case Page(events) =>
      NothingShown();
      assert {} + Events(events) == Events(events);
      MergeMeaning([], events, {});
    case Both(first, second) =>
      CarryMeaning(first);
      CarryMeaning(second);
      ShownWithin(Carry(second), PlanEvents(second));
      MergeMeaning(Carry(first), Carry(second), PlanEvents(first));
      ShownDistinct(Carry(second), PlanEvents(second));
      var merged := Merge(Carry(first), Carry(second));
      forall e
        ensures NewestOf(e, PlanEvents(first) + Events(Carry(second))) <==> NewestOf(e, PlanEvents(first) + PlanEvents(second))
      {
        NewestOnly(e, PlanEvents(first), Carry(second), PlanEvents(second));
      }
      SameShown(merged, PlanEvents(first) + Events(Carry(second)), PlanEvents(first) + PlanEvents(second));
  }

  lemma SameShown(list: seq<Activity>, events: set<Activity>, others: set<Activity>)
    requires Shown(list, events) && forall e :: NewestOf(e, events) <==> NewestOf(e, others)
    ensures Shown(list, others)
  {
    hide NewestOf;
  }

  lemma NothingShown()
    ensures Shown([], {})
  {
  }

  lemma ShownWithin(list: seq<Activity>, events: set<Activity>)
    requires Shown(list, events)
    ensures Events(list) <= events
  {
  }

  lemma NewestMember(list: seq<Activity>, events: set<Activity>, e: Activity)
    requires Newest(list, events)
    ensures e in list <==> NewestOf(e, events)
  {
  }

  /** Only the newest events of a list matter to a merge. */
  lemma NewestOnly(e: Activity, events: set<Activity>, list: seq<Activity>, more: set<Activity>)
    requires Newest(list, more)
    ensures NewestOf(e, events + Events(list)) <==> NewestOf(e, events + more)
  {
    hide Newest;
    NewestMember(list, more, e);
    if NewestOf(e, events + Events(list)) {
      forall f | f in events + more && f.id == e.id ensures f.sequence <= e.sequence {
        if f in more {
          NewestExists(list, more, f);
          var g :| g in list && g.id == f.id && f.sequence <= g.sequence;
          assert g in events + Events(list);
        } else {
          assert f in events + Events(list);
        }
      }
    }
    if NewestOf(e, events + more) {
      forall f | f in more && f.id == e.id ensures f.sequence <= e.sequence {
        assert f in events + more;
      }
      forall f | f in events + Events(list) && f.id == e.id ensures f.sequence <= e.sequence {
        NewestMember(list, more, f);
        assert f in events + more;
      }
    }
  }

  /** Two ways of merging pages that hold the same events give the same list, whatever the order, the grouping and
      the repetition. */
  lemma OrderDoesNotMatter(a: Plan, b: Plan)
    requires PlanEvents(a) == PlanEvents(b) && Numbered(PlanEvents(a))
    ensures Carry(a) == Carry(b)
  {
    hide Carry;
    CarryMeaning(a);
    CarryMeaning(b);
    ShownIsUnique(Carry(a), Carry(b));
  }
}
