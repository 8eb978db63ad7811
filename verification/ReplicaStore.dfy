/** One device's sync storage: the outbox of unsent local changes, the saved upload, the cursor, and the
    last-writer-wins state of every entity. Local changes are stamped with a hybrid clock; a page of
    remote changes is sorted by revision and applied in one transaction together with its cursor.

    `received` is a history of every change handed over by the provider, in log order. */
module ReplicaStore {
  import opened Wrappers
  import opened SyncLog

  /** The envelope saved before its first upload attempt, and the outbox rows it stands for. */
  datatype PendingUpload = PendingUpload(envelope: Envelope, changeIds: seq<nat>)

  datatype Replica = Replica(
    outbox: seq<Change>,
    pending: Option<PendingUpload>,
    cursor: nat,
    entities: map<nat, Change>,
    clock: nat,
    received: seq<Change>)

  const EMPTY_REPLICA := Replica([], None, 0, map[], 0, [])

  const MAX_REMOTE_CLOCK_SKEW_MILLIS: nat := 24 * 60 * 60 * 1000

  datatype StoreError = RevisionConflict | EnvelopeMismatch | ClockSkew

  function Max(a: nat, b: nat): nat {
    if a < b then b else a
  }

  /** Capturing a local edit: the revision is newer than everything this device has seen. */
  function RecordLocal(r: Replica, device: nat, id: nat, entity: nat, body: nat, now: nat): (Replica, Change) {
    var millis := Max(now, r.clock + 1);
    var change := Change(id, entity, Revision(millis, device), body);
    (r.(outbox := r.outbox + [change], entities := r.entities[entity := change], clock := millis), change)
  }

  function ExportPending(r: Replica, limit: nat): seq<Change> {
    if limit < |r.outbox| then r.outbox[..limit] else r.outbox
  }

  function Filter(xs: seq<Change>, keep: Change -> bool): (ys: seq<Change>)
    ensures forall c :: c in ys <==> c in xs && keep(c)
    ensures |ys| <= |xs| && (|ys| == |xs| ==> ys == xs)
  {
    if xs == [] then []
    else
      var rest := Filter(xs[..|xs| - 1], keep);
      if keep(xs[|xs| - 1]) then rest + [xs[|xs| - 1]] else rest
  }

  function ChangeIds(changes: seq<Change>): (ids: seq<nat>)
    ensures |ids| == |changes|
    ensures forall i :: 0 <= i < |ids| ==> ids[i] == changes[i].id
  {
    seq(|changes|, i requires 0 <= i < |changes| => changes[i].id)
  }

  function Acknowledge(r: Replica, envelopeId: nat): Result<(Replica, nat), StoreError> {
    match r.pending
    case None => Ok((r, 0))
    case Some(p) =>
      if p.envelope.id != envelopeId then Err(EnvelopeMismatch)
      else
        var rest := Filter(r.outbox, (c: Change) => c.id !in p.changeIds);
        Ok((r.(outbox := rest, pending := None), |r.outbox| - |rest|))
  }

  predicate SameContent(a: Change, b: Change) {
    a.entity == b.entity && a.body == b.body
  }

  /** Applying one remote change: an older revision is ignored, an equal one must carry the same content,
      a newer one replaces the entity and drops the outbox rows it overtakes. */
  function ApplyChange(r: Replica, c: Change): Result<Replica, StoreError> {
    var r1 := r.(clock := Max(r.clock, c.revision.millis));
    if c.entity in r.entities && Before(c.revision, r.entities[c.entity].revision) then Ok(r1)
    else if c.entity in r.entities && c.revision == r.entities[c.entity].revision then
      if SameContent(c, r.entities[c.entity]) then Ok(r1) else Err(RevisionConflict)
    else
      Ok(r1.(
        entities := r1.entities[c.entity := c],
        outbox := Filter(r1.outbox, (o: Change) => !(o.entity == c.entity && AtMost(o.revision, c.revision)))))
  }

  function ApplyAll(r: Replica, ordered: seq<Change>): Result<Replica, StoreError> {
    if ordered == [] then Ok(r)
    else
      var front := ApplyAll(r, ordered[..|ordered| - 1]);
      if front.Err? then front else ApplyChange(front.value, ordered[|ordered| - 1])
  }

  predicate SortKeyAtMost(a: Change, b: Change) {
    Before(a.revision, b.revision) || (a.revision == b.revision && a.id <= b.id)
  }

  function Insert(c: Change, sorted: seq<Change>): (r: seq<Change>)
    ensures multiset(r) == multiset(sorted) + multiset{c}
  {
    if sorted == [] then [c]
    else if SortKeyAtMost(c, sorted[0]) then [c] + sorted
    else
      assert sorted == [sorted[0]] + sorted[1..];
      [sorted[0]] + Insert(c, sorted[1..])
  }

  function SortByRevision(changes: seq<Change>): (r: seq<Change>)
    ensures multiset(r) == multiset(changes)
  {
    if changes == [] then []
    else
      assert changes == [changes[0]] + changes[1..];
      Insert(changes[0], SortByRevision(changes[1..]))
  }

  ghost predicate SortedByRevision(changes: seq<Change>) {
    forall i, j :: 0 <= i < j < |changes| ==> SortKeyAtMost(changes[i], changes[j])
  }

  lemma {:induction false} InsertSorts(c: Change, sorted: seq<Change>)
    requires SortedByRevision(sorted)
    ensures SortedByRevision(Insert(c, sorted))
  {
    if sorted != [] && !SortKeyAtMost(c, sorted[0]) {
      var rest := Insert(c, sorted[1..]);
      InsertSorts(c, sorted[1..]);
      assert sorted == [sorted[0]] + sorted[1..];
      forall j | 0 <= j < |rest| ensures SortKeyAtMost(sorted[0], rest[j]) {
        assert rest[j] in multiset(rest);
        assert rest[j] in multiset(sorted[1..]) || rest[j] == c;
        if rest[j] != c {
          var i :| 0 <= i < |sorted[1..]| && sorted[1..][i] == rest[j];
          assert sorted[i + 1] == rest[j];
        }
      }
    }
  }

  /** A page is applied oldest revision first, equal revisions by change identifier. */
  lemma {:induction false} SortOrders(changes: seq<Change>)
    ensures SortedByRevision(SortByRevision(changes)) && multiset(SortByRevision(changes)) == multiset(changes)
    ensures var sorted := SortByRevision(changes);
            forall i, j :: 0 <= i < j < |sorted| ==>
                             NotNewer(sorted[i], sorted[j]) && (sorted[i].revision == sorted[j].revision ==> sorted[i].id <= sorted[j].id)
  {
    if changes != [] {
      SortOrders(changes[1..]);
      InsertSorts(changes[0], SortByRevision(changes[1..]));
    }
    var sorted := SortByRevision(changes);
    forall i, j | 0 <= i < j < |sorted|
      ensures NotNewer(sorted[i], sorted[j]) && (sorted[i].revision == sorted[j].revision ==> sorted[i].id <= sorted[j].id)
    {
      assert SortKeyAtMost(sorted[i], sorted[j]);
    }
  }

  // ----- When a page clashes -----

  /** Two contents for one revision of one entity, neither of them out of date: both in the page, or one in it and the
      other stored. */
  ghost predicate Clash(r: Replica, changes: set<Change>, b: Change, c: Change) {
    b in changes && (c in changes || (b.entity in r.entities && c == r.entities[b.entity]))
    && b.entity == c.entity && b.revision == c.revision && b.body != c.body
    && (b.entity in r.entities ==> AtMost(r.entities[b.entity].revision, b.revision))
  }

  ghost predicate Clashes(r: Replica, changes: set<Change>) {
    exists b, c :: Clash(r, changes, b, c)
  }

  /** After some of a sorted page: each entity holds the newest of what was stored and what came. */
  ghost predicate Newest(r: Replica, done: set<Change>, after: Replica) {
    && (forall e :: e in after.entities <==> e in r.entities || exists c :: c in done && c.entity == e)
    && (forall e :: e in after.entities ==>
          (e in r.entities && after.entities[e] == r.entities[e]) || (after.entities[e] in done && after.entities[e].entity == e))
    && (forall e :: e in r.entities ==> AtMost(r.entities[e].revision, after.entities[e].revision))
    && (forall c :: c in done ==> AtMost(c.revision, after.entities[c.entity].revision))
  }

  /** What is stored under an entity is a change of that entity. */
  ghost predicate Keyed(r: Replica) {
    forall e :: e in r.entities ==> r.entities[e].entity == e
  }

  lemma AppliedEntities(mid: Replica, b: Change)
    requires ApplyChange(mid, b).Ok?
    ensures var after := ApplyChange(mid, b).value.entities;
            after == if b.entity in mid.entities && AtMost(b.revision, mid.entities[b.entity].revision) then mid.entities
                     else mid.entities[b.entity := b]
  {
  }

  lemma NewestStep(r: Replica, done: set<Change>, mid: Replica, b: Change)
    requires Keyed(r) && Newest(r, done, mid) && ApplyChange(mid, b).Ok?
    ensures Newest(r, done + {b}, ApplyChange(mid, b).value)
  {
    hide ApplyChange, SameContent;
    AppliedEntities(mid, b);
  }

  /** A change that is as new as what is stored, among changes that do not clash, has the same content. */
  lemma SettledContent(r: Replica, done: set<Change>, mid: Replica, c: Change)
    requires Keyed(r) && Newest(r, done, mid) && !Clashes(r, done)
    requires c in done || (c.entity in r.entities && c == r.entities[c.entity])
    requires c.entity in mid.entities && mid.entities[c.entity].revision == c.revision
    ensures mid.entities[c.entity].body == c.body
    ensures mid.entities[c.entity].entity == c.entity
  {
    var w := mid.entities[c.entity];
    assert w.body != c.body ==> if w in done then Clash(r, done, w, c) else Clash(r, done, c, w);
  }

  lemma RefusedClashes(r: Replica, done: set<Change>, mid: Replica, b: Change)
    requires Keyed(r) && Newest(r, done, mid) && ApplyChange(mid, b).Err?
    ensures Clashes(r, done + {b})
  {
    var w := mid.entities[b.entity];
    assert Clash(r, done + {b}, b, w);
  }

  lemma ClashRefuses(r: Replica, done: set<Change>, mid: Replica, b: Change, x: Change, y: Change)
    requires Keyed(r) && Newest(r, done, mid) && !Clashes(r, done)
    requires forall c :: c in done ==> AtMost(c.revision, b.revision)
    requires Clash(r, done + {b}, x, y) && (x == b || y == b)
    ensures ApplyChange(mid, b).Err?
  {
    hide Clashes;
    var other := if x == b then y else x;
    assert b.entity in mid.entities && mid.entities[b.entity].revision == b.revision;
    SettledContent(r, done, mid, other);
  }

  lemma ClashStep(r: Replica, done: set<Change>, mid: Replica, b: Change)
    requires Keyed(r) && Newest(r, done, mid) && !Clashes(r, done)
    requires forall c :: c in done ==> AtMost(c.revision, b.revision)
    ensures ApplyChange(mid, b).Err? <==> Clashes(r, done + {b})
  {
    hide Newest, ApplyChange, AtMost;
    if ApplyChange(mid, b).Err? {
      RefusedClashes(r, done, mid, b);
    }
    if Clashes(r, done + {b}) {
      var x, y :| Clash(r, done + {b}, x, y);
      assert x != b && y != b ==> Clash(r, done, x, y);
      ClashRefuses(r, done, mid, b, x, y);
    }
  }

  lemma FrontIsOlder(ordered: seq<Change>)
    requires SortedByRevision(ordered) && ordered != []
    ensures var front, b := ordered[..|ordered| - 1], ordered[|ordered| - 1];
            && SortedByRevision(front) && Elements(ordered) == Elements(front) + {b}
            && forall c :: c in Elements(front) ==> AtMost(c.revision, b.revision)
  {
    var front, b := ordered[..|ordered| - 1], ordered[|ordered| - 1];
    assert ordered == front + [b];
    forall c | c in Elements(front) ensures AtMost(c.revision, b.revision) {
      var i :| 0 <= i < |front| && front[i] == c;
      assert SortKeyAtMost(ordered[i], ordered[|ordered| - 1]);
    }
  }

  /** Which pages are refused for a clash, whatever they contain: exactly those with two contents for a revision that
      is not out of date. In a run of the protocol there are none. */
  lemma {:induction false} ClashExactly(r: Replica, ordered: seq<Change>)
    requires Keyed(r) && SortedByRevision(ordered)
    ensures ApplyAll(r, ordered) == Err(RevisionConflict) <==> Clashes(r, Elements(ordered))
    ensures ApplyAll(r, ordered).Ok? ==> Newest(r, Elements(ordered), ApplyAll(r, ordered).value)
    ensures ApplyAll(r, ordered).Err? ==> ApplyAll(r, ordered).error == RevisionConflict
  {
    hide Newest, ApplyChange, Clashes, Keyed, SortedByRevision, Elements, AtMost;
    if ordered == [] {
      NothingNew(r);
    } else {
      var front, b := ordered[..|ordered| - 1], ordered[|ordered| - 1];
      FrontIsOlder(ordered);
      ClashExactly(r, front);
      if Clashes(r, Elements(front)) {
        ClashesMore(r, Elements(front), Elements(ordered));
      }
      if ApplyAll(r, front).Ok? {
        var mid := ApplyAll(r, front).value;
        OnlyConflicts(mid, b);
        ClashStep(r, Elements(front), mid, b);
        if ApplyChange(mid, b).Ok? {
          NewestStep(r, Elements(front), mid, b);
        }
      }
    }
  }

  lemma ClashesMore(r: Replica, some: set<Change>, more: set<Change>)
    requires Clashes(r, some) && some <= more
    ensures Clashes(r, more)
  {
    var b, c :| Clash(r, some, b, c);
    assert Clash(r, more, b, c);
  }

  lemma OnlyConflicts(r: Replica, b: Change)
    ensures ApplyChange(r, b).Err? ==> ApplyChange(r, b).error == RevisionConflict
  {
  }

  lemma NothingNew(r: Replica)
    requires Keyed(r)
    ensures Newest(r, Elements([]), r) && !Clashes(r, Elements([]))
  {
  }

  /** The same for a whole page as it is stored. */
  lemma PageClashesExactly(r: Replica, cursor: nat, changes: seq<Change>, now: nat)
    requires Keyed(r)
    ensures ApplyRemoteBatch(r, cursor, changes, now) == Err(RevisionConflict) <==>
            InTime(changes, now) && Clashes(r, Elements(changes))
    ensures ApplyRemoteBatch(r, cursor, changes, now).Ok? <==> InTime(changes, now) && !Clashes(r, Elements(changes))
  {
    SortOrders(changes);
    ClashExactly(r, SortByRevision(changes));
    SameElements(SortByRevision(changes), changes);
  }

  // ----- Rows of the outbox -----

  lemma FilterLast(xs: seq<Change>, keep: Change -> bool)
    requires xs != []
    ensures var n := |xs| - 1;
            Filter(xs, keep) == Filter(xs[..n], keep) + if keep(xs[n]) then [xs[n]] else []
  {
    assert Filter(xs[..|xs| - 1], keep) + [] == Filter(xs[..|xs| - 1], keep);
  }

  /** Rows that stay in the outbox stay in their order. */
  lemma {:induction false} FilterKeepsOrder(xs: seq<Change>, ys: seq<Change>, keep: Change -> bool)
    ensures Filter(xs + ys, keep) == Filter(xs, keep) + Filter(ys, keep)
  {
    hide Filter;
    if ys == [] {
      assert xs + ys == xs;
      FilterNone(keep);
    } else {
      var n := |ys| - 1;
      FilterKeepsOrder(xs, ys[..n], keep);
      FilterLast(xs + ys, keep);
      FilterLast(ys, keep);
      assert (xs + ys)[..|xs + ys| - 1] == xs + ys[..n];
    }
  }

  lemma FilterNone(keep: Change -> bool)
    ensures Filter([], keep) == []
  {
  }

  /** No revision is implausibly far ahead of the receiving device's clock. */
  predicate InTime(changes: seq<Change>, now: nat) {
    forall i :: 0 <= i < |changes| ==> changes[i].revision.millis <= now + MAX_REMOTE_CLOCK_SKEW_MILLIS
  }

  /** The whole page and its cursor are stored together, or nothing is. `now` is the receiver's clock. */
  function ApplyRemoteBatch(r: Replica, cursor: nat, changes: seq<Change>, now: nat): Result<Replica, StoreError> {
    if !InTime(changes, now) then Err(ClockSkew)
    else
      var applied := ApplyAll(r, SortByRevision(changes));
      if applied.Err? then applied
      else Ok(applied.value.(cursor := cursor, received := r.received + changes))
  }

  // ----- What these operations mean -----

  /** A revision names one change: the clock discipline makes this hold of everything ever recorded. */
  ghost predicate RevisionsName(changes: set<Change>) {
    forall a, b :: a in changes && b in changes && a.revision == b.revision ==> a == b
  }

  /** The change was made earlier, or in the same millisecond by the same device or one of a smaller identifier. */
  predicate NotNewer(c: Change, winner: Change) {
    || c.revision.millis < winner.revision.millis
    || (c.revision.millis == winner.revision.millis && c.revision.device <= winner.revision.device)
  }

  /** `entities` holds, for every entity touched by `known`, the newest change among them. */
  ghost predicate HoldsWinners(entities: map<nat, Change>, known: set<Change>) {
    && (forall c :: c in known ==> c.entity in entities && NotNewer(c, entities[c.entity]))
    && (forall e :: e in entities ==> entities[e] in known && entities[e].entity == e)
  }

  function Elements(xs: seq<Change>): set<Change> {
    set c | c in xs
  }

  /** The winners are determined by the set of known changes alone. */
  lemma WinnersAreUnique(x: map<nat, Change>, y: map<nat, Change>, known: set<Change>)
    requires RevisionsName(known) && HoldsWinners(x, known) && HoldsWinners(y, known)
    ensures x == y
  {
    forall e | e in x ensures e in y && x[e] == y[e] {
      assert x[e] in known;
      assert y[e] in known;
    }
    assert x.Keys == y.Keys;
  }

  /** Some change of the batch overtakes what the entity held before the batch. */
  ghost predicate Overtakes(entities: map<nat, Change>, batch: set<Change>, c: Change) {
    exists b :: b in batch && b.entity == c.entity
      && (b.entity !in entities || Before(entities[b.entity].revision, b.revision))
  }

  /** The device has received `c` itself, or a newer change of the same entity. */
  ghost predicate Covered(received: seq<Change>, c: Change) {
    exists b :: b in received && b.entity == c.entity && AtMost(c.revision, b.revision)
  }

  /** The outbox never runs ahead of the entity states. */
  ghost predicate OutboxBehind(r: Replica) {
    forall c :: c in r.outbox ==> c.entity in r.entities && AtMost(c.revision, r.entities[c.entity].revision)
  }

  /** What applying a set of remote changes to `r` has to come to. */
  ghost predicate AppliedTo(r: Replica, known: set<Change>, batch: set<Change>, after: Replica) {
    && HoldsWinners(after.entities, known + batch)
    && OutboxBehind(after)
    && after.pending == r.pending && after.cursor == r.cursor && after.received == r.received
    && after.clock >= r.clock && (forall c :: c in batch ==> c.revision.millis <= after.clock)
    && (forall c :: c in after.outbox <==> c in r.outbox && !Overtakes(r.entities, batch, c))
  }

  predicate Wins(r: Replica, b: Change) {
    b.entity !in r.entities || Before(r.entities[b.entity].revision, b.revision)
  }

  /** A change applied to storage that is behind it replaces the entity; otherwise only the clock moves. */
  lemma ApplyChangeCases(r: Replica, known: set<Change>, b: Change)
    requires HoldsWinners(r.entities, known)
    requires RevisionsName(known + {b})
    ensures var r1 := r.(clock := Max(r.clock, b.revision.millis));
            var kept := Filter(r.outbox, (o: Change) => !(o.entity == b.entity && AtMost(o.revision, b.revision)));
            ApplyChange(r, b) == Ok(if Wins(r, b) then r1.(entities := r.entities[b.entity := b], outbox := kept) else r1)
  {
    if b.entity in r.entities {
      assert r.entities[b.entity] in known;
    }
  }

  lemma OneOvertakes(r: Replica, b: Change, c: Change)
    requires OutboxBehind(r) && c in r.outbox
    ensures Overtakes(r.entities, {b}, c) <==> b.entity == c.entity && Wins(r, b)
    ensures Overtakes(r.entities, {b}, c) ==> AtMost(c.revision, b.revision)
  {
  }

  lemma WinnersAfter(r: Replica, known: set<Change>, b: Change, entities: map<nat, Change>)
    requires HoldsWinners(r.entities, known) && RevisionsName(known + {b})
    requires entities == if Wins(r, b) then r.entities[b.entity := b] else r.entities
    ensures HoldsWinners(entities, known + {b})
  {
    if b.entity in r.entities {
      assert r.entities[b.entity] in known;
    }
  }

  lemma ApplyChangeMeaning(r: Replica, known: set<Change>, b: Change)
    requires HoldsWinners(r.entities, known) && OutboxBehind(r)
    requires RevisionsName(known + {b})
    ensures ApplyChange(r, b).Ok?
    ensures AppliedTo(r, known, {b}, ApplyChange(r, b).value)
  {
    hide AtMost, Before, ApplyChange, NotNewer, HoldsWinners;
    ApplyChangeCases(r, known, b);
    var after := ApplyChange(r, b).value;
    forall c | c in r.outbox {
      OneOvertakes(r, b, c);
    }
    WinnersAfter(r, known, b, after.entities);
  }

  /** An outbox row is overtaken by two batches in a row exactly when their union overtakes it. */
  lemma OvertakenInTurn(r: Replica, mid: Replica, known: set<Change>, front: set<Change>, back: set<Change>, c: Change)
    requires HoldsWinners(r.entities, known) && OutboxBehind(r)
    requires HoldsWinners(mid.entities, known + front)
    requires RevisionsName(known + front)
    requires c in r.outbox
    ensures Overtakes(r.entities, front + back, c)
        <==> Overtakes(r.entities, front, c) || Overtakes(mid.entities, back, c)
  {
    var e := c.entity;
    assert r.entities[e] in known && e in mid.entities;
    assert mid.entities[e] in known + front;
    if !Overtakes(r.entities, front, c) {
      assert mid.entities[e].revision == r.entities[e].revision;
      assert Overtakes(mid.entities, back, c) <==> Overtakes(r.entities, back, c);
    }
  }

  lemma AppliedInTurn(r: Replica, mid: Replica, after: Replica, known: set<Change>, front: set<Change>, back: set<Change>)
    requires HoldsWinners(r.entities, known) && OutboxBehind(r)
    requires RevisionsName(known + front)
    requires AppliedTo(r, known, front, mid)
    requires AppliedTo(mid, known + front, back, after)
    ensures AppliedTo(r, known, front + back, after)
  {
    assert known + (front + back) == known + front + back;
    forall c | c in r.outbox {
      OvertakenInTurn(r, mid, known, front, back, c);
    }
  }

  lemma ApplyNext(r: Replica, mid: Replica, known: set<Change>, front: set<Change>, b: Change)
    requires HoldsWinners(r.entities, known) && OutboxBehind(r)
    requires RevisionsName(known + (front + {b}))
    requires AppliedTo(r, known, front, mid)
    ensures ApplyChange(mid, b).Ok?
    ensures AppliedTo(r, known, front + {b}, ApplyChange(mid, b).value)
  {
    assert known + (front + {b}) == known + front + {b};
    ApplyChangeMeaning(mid, known + front, b);
    AppliedInTurn(r, mid, ApplyChange(mid, b).value, known, front, {b});
  }

  lemma NothingApplied(r: Replica, known: set<Change>)
    requires HoldsWinners(r.entities, known) && OutboxBehind(r)
    ensures AppliedTo(r, known, {}, r)
  {
    assert known + {} == known;
  }

  lemma FewerAreNamed(some: set<Change>, all: set<Change>)
    requires RevisionsName(all) && some <= all
    ensures RevisionsName(some)
  {
  }

  lemma {:induction false} ApplyAllMeaning(r: Replica, known: set<Change>, ordered: seq<Change>)
    requires HoldsWinners(r.entities, known) && OutboxBehind(r)
    requires RevisionsName(known + Elements(ordered))
    ensures ApplyAll(r, ordered).Ok?
    ensures AppliedTo(r, known, Elements(ordered), ApplyAll(r, ordered).value)
  {
    hide ApplyChange, AppliedTo, HoldsWinners, OutboxBehind, RevisionsName;
    if ordered == [] {
      assert Elements(ordered) == {};
      NothingApplied(r, known);
    } else {
      var front, b := ordered[..|ordered| - 1], ordered[|ordered| - 1];
      assert ordered == front + [b];
      assert Elements(ordered) == Elements(front) + {b};
      FewerAreNamed(known + Elements(front), known + Elements(ordered));
      ApplyAllMeaning(r, known, front);
      ApplyNext(r, ApplyAll(r, front).value, known, Elements(front), b);
    }
  }

  lemma SameElements(xs: seq<Change>, ys: seq<Change>)
    requires multiset(xs) == multiset(ys)
    ensures Elements(xs) == Elements(ys)
  {
    forall c ensures c in xs <==> c in ys {
      assert c in xs <==> c in multiset(xs);
      assert c in ys <==> c in multiset(ys);
    }
  }

  /** The clock moves only to a revision it is shown. */
  lemma {:induction false} ClockIsSeen(r: Replica, ordered: seq<Change>)
    ensures ApplyAll(r, ordered).Ok? ==>
              ApplyAll(r, ordered).value.clock == r.clock
              || exists c :: c in ordered && c.revision.millis == ApplyAll(r, ordered).value.clock
  {
    if ordered != [] {
      var front, last := ordered[..|ordered| - 1], ordered[|ordered| - 1];
      ClockIsSeen(r, front);
      assert ordered == front + [last];
      assert last in ordered;
    }
  }

  /** Applying a page of well-stamped changes fails exactly when one of them is more than a day ahead of the
      receiver's clock. Otherwise every entity then holds the newest change known so far, and an outbox row
      survives exactly when no change of the page overtakes its entity. In particular a local change can leave
      the outbox without having been uploaded. */
  lemma ApplyBatchMeaning(r: Replica, known: set<Change>, cursor: nat, changes: seq<Change>, now: nat)
    requires HoldsWinners(r.entities, known) && OutboxBehind(r)
    requires RevisionsName(known + Elements(changes))
    ensures ApplyRemoteBatch(r, cursor, changes, now).Ok? <==> InTime(changes, now)
    ensures !InTime(changes, now) ==> ApplyRemoteBatch(r, cursor, changes, now) == Err(ClockSkew)
    ensures InTime(changes, now) ==>
              var after := ApplyRemoteBatch(r, cursor, changes, now).value;
              && HoldsWinners(after.entities, known + Elements(changes))
              && OutboxBehind(after)
              && after.pending == r.pending
              && after.cursor == cursor && after.received == r.received + changes
              && after.clock >= r.clock && (forall c :: c in changes ==> c.revision.millis <= after.clock)
              && (after.clock == r.clock || exists c :: c in changes && c.revision.millis == after.clock)
              && (forall c :: c in after.outbox <==> c in r.outbox && !Overtakes(r.entities, Elements(changes), c))
  {
    hide HoldsWinners, RevisionsName, ApplyAll, InTime, SortByRevision, Overtakes;
    ClockIsSeen(r, SortByRevision(changes));
    var ordered := SortByRevision(changes);
    SameElements(ordered, changes);
    ApplyAllMeaning(r, known, ordered);
    forall c | c in changes ensures c in Elements(ordered) {
      assert c in Elements(changes);
    }
    forall c | c in ordered ensures c in changes {
      assert c in Elements(ordered);
    }
  }

  /** The stamp is the least that is not behind the device's own clock and is newer than everything it has seen. */
  lemma RecordLocalMeaning(r: Replica, known: set<Change>, device: nat, id: nat, entity: nat, body: nat, now: nat)
    requires HoldsWinners(r.entities, known) && OutboxBehind(r)
    requires forall c :: c in known ==> c.revision.millis <= r.clock
    ensures var (after, change) := RecordLocal(r, device, id, entity, body, now);
            && change == Change(id, entity, Revision(change.revision.millis, device), body)
            && change !in known
            && (forall c :: c in known ==> Before(c.revision, change.revision))
            && now <= change.revision.millis && r.clock < change.revision.millis
            && (change.revision.millis == now || change.revision.millis == r.clock + 1)
            && after.clock == change.revision.millis
            && after.outbox == r.outbox + [change]
            && after.pending == r.pending && after.cursor == r.cursor && after.received == r.received
            && HoldsWinners(after.entities, known + {change})
            && OutboxBehind(after)
            && (forall c :: c in known + {change} ==> c.revision.millis <= after.clock)
  {
    var (after, change) := RecordLocal(r, device, id, entity, body, now);
    hide OutboxBehind;
    assert entity in r.entities ==> r.entities[entity] in known;
    OutboxAfterEdit(r, change, after);
  }

  lemma OutboxAfterEdit(r: Replica, change: Change, after: Replica)
    requires OutboxBehind(r)
    requires change.entity in r.entities ==> AtMost(r.entities[change.entity].revision, change.revision)
    requires after.outbox == r.outbox + [change] && after.entities == r.entities[change.entity := change]
    ensures OutboxBehind(after)
  {
    forall c | c in after.outbox ensures c.entity in after.entities && AtMost(c.revision, after.entities[c.entity].revision) {
      assert c in r.outbox || c == change;
    }
  }

  lemma AcknowledgeMeaning(r: Replica, envelopeId: nat)
    requires r.pending.Some? && r.pending.value.envelope.id == envelopeId
    ensures Acknowledge(r, envelopeId).Ok?
    ensures var after := Acknowledge(r, envelopeId).value.0;
            && after == r.(outbox := after.outbox, pending := None)
            && Acknowledge(r, envelopeId).value.1 == |r.outbox| - |after.outbox|
            && (forall c :: c in after.outbox <==> c in r.outbox && c.id !in r.pending.value.changeIds)
            && |after.outbox| <= |r.outbox| && (|after.outbox| == |r.outbox| ==> after.outbox == r.outbox)
  {
  }

  lemma {:induction false} ApplyKeepsPending(r: Replica, ordered: seq<Change>)
    ensures ApplyAll(r, ordered).Ok? ==> ApplyAll(r, ordered).value.pending == r.pending
  {
    if ordered != [] {
      ApplyKeepsPending(r, ordered[..|ordered| - 1]);
    }
  }

  lemma {:induction false} RowsOfAll(r: Replica, ordered: seq<Change>, c: Change)
    requires ApplyAll(r, ordered).Ok?
    ensures |ApplyAll(r, ordered).value.outbox| <= |r.outbox|
    ensures |ApplyAll(r, ordered).value.outbox| == |r.outbox| ==> ApplyAll(r, ordered).value.outbox == r.outbox
    ensures c in ApplyAll(r, ordered).value.outbox ==> c in r.outbox
    ensures c in r.outbox && c !in ApplyAll(r, ordered).value.outbox ==> Covered(ordered, c)
  {
    if ordered != [] {
      var front, last := ordered[..|ordered| - 1], ordered[|ordered| - 1];
      RowsOfAll(r, front, c);
      assert ordered == front + [last];
      assert last in ordered;
    }
  }

  /** Storing a page adds no row to the outbox and takes one away only for a change of the page: the row itself, or
      a newer one of the same entity. This holds whatever the page contains. */
  lemma RowsOfPage(r: Replica, cursor: nat, changes: seq<Change>, now: nat)
    requires ApplyRemoteBatch(r, cursor, changes, now).Ok?
    ensures var after := ApplyRemoteBatch(r, cursor, changes, now).value;
            && after.pending == r.pending
            && |after.outbox| <= |r.outbox| && (|after.outbox| == |r.outbox| ==> after.outbox == r.outbox)
            && (forall c :: c in after.outbox ==> c in r.outbox)
            && (forall c :: c in r.outbox ==> c in after.outbox || Covered(changes, c))
  {
    var ordered := SortByRevision(changes);
    var after := ApplyRemoteBatch(r, cursor, changes, now).value;
    ApplyKeepsPending(r, ordered);
    RowsOfAll(r, ordered, Change(0, 0, Revision(0, 0), 0));
    forall c ensures (c in after.outbox ==> c in r.outbox) && (c in r.outbox ==> c in after.outbox || Covered(changes, c)) {
      RowsOfAll(r, ordered, c);
      SameElements(ordered, changes);
      CoveredBySame(ordered, changes, c);
    }
  }

  lemma CoveredBySame(xs: seq<Change>, ys: seq<Change>, c: Change)
    requires Elements(xs) == Elements(ys)
    ensures Covered(xs, c) ==> Covered(ys, c)
  {
    if Covered(xs, c) {
      var b :| b in xs && b.entity == c.entity && AtMost(c.revision, b.revision);
      assert b in Elements(xs);
    }
  }

  /** What is covered stays covered as more is received. */
  lemma CoveredByMore(xs: seq<Change>, ys: seq<Change>, c: Change)
    requires forall b :: b in xs ==> b in ys
    ensures Covered(xs, c) ==> Covered(ys, c)
  {
  }
}
