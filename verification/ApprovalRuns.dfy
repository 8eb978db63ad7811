/** Runs of the approval queue against the gateway. The gateway inserts a request before it announces it and
    removes a request before it says so, each in two steps that other threads can come between. Events reach
    the window in the order in which they were emitted; the status snapshot travels on its own. */
module ApprovalRuns {
  import opened Wrappers
  import opened ApprovalQueue

  datatype Event = Requested(request: Request) | Resolved(id: string)

  datatype Snapshot = NotAsked | InFlight(pending: seq<Request>) | Loaded

  datatype World = World(
    issued: map<string, Request>,
    pending: set<string>,
    answering: set<string>,
    announcing: set<string>,
    noticing: set<string>,
    resolved: set<string>,
    late: set<string>,
    channel: seq<Event>,
    listening: bool,
    snapshot: Snapshot,
    queue: seq<Request>,
    seen: set<string>)

  datatype Step =
    | Submit(request: Request)
    | Announce(id: string)
    | Resolve(id: string, all: bool, byUser: bool)
    | Notice(id: string)
    | Listen
    | AskStatus(pending: seq<Request>)
    | LoadStatus
    | Deliver
    | Answer(id: string)

  /** A snapshot is the pending requests in (timestamp, sequence) order. */
  ghost predicate IsStatus(requests: seq<Request>, w: World) {
    && DistinctIds(requests) && Ordered(requests)
    && forall r :: r in requests <==> r.id in w.pending && r.id in w.issued && w.issued[r.id] == r
  }

  ghost predicate Enabled(w: World, step: Step) {
    match step
    // Identifiers are random, and the gateway numbers its requests.
    case Submit(r) =>
      r.id != "" && r.id !in w.issued && forall id :: id in w.issued ==> Sequence(w.issued[id]) != Sequence(r)
    case Announce(id) => id in w.announcing && id in w.issued
    case Resolve(id, _, _) => id in w.pending
    case Notice(id) => id in w.noticing
    case Listen => !w.listening
    case AskStatus(pending) => w.listening && w.snapshot.NotAsked? && IsStatus(pending, w)
    case LoadStatus => w.snapshot.InFlight?
    case Deliver => w.channel != []
    // The answer to a decision of the user that took its request out of the pending set. A decision about a
    // request that is no longer pending fails, and leaves the queue as it is.
    case Answer(id) => id in w.answering
  }

  function Emit(w: World, event: Event): seq<Event> {
    if w.listening then w.channel + [event] else w.channel
  }

  function Apply(w: World, step: Step): World
    requires Enabled(w, step)
  {
    match step
    case Submit(r) =>
      w.(issued := w.issued[r.id := r], pending := w.pending + {r.id}, announcing := w.announcing + {r.id})
    case Announce(id) =>
      w.(announcing := w.announcing - {id}, channel := Emit(w, Requested(w.issued[id])),
         late := if id in w.resolved then w.late + {id} else w.late)
    case Resolve(id, all, byUser) =>
      var gone := if all then w.pending else {id};
      w.(pending := w.pending - gone, noticing := w.noticing + gone,
         answering := if byUser then w.answering + {id} else w.answering)
    case Notice(id) =>
      w.(noticing := w.noticing - {id}, resolved := w.resolved + {id}, channel := Emit(w, Resolved(id)))
    case Listen => w.(listening := true)
    case AskStatus(pending) => w.(snapshot := InFlight(pending))
    case LoadStatus => w.(snapshot := Loaded, queue := MergePending(w.queue, w.snapshot.pending, w.seen))
    case Deliver =>
      var rest := w.(channel := w.channel[1..]);
      (match w.channel[0]
       case Requested(r) => rest.(queue := MergePending(w.queue, [r], {}))
       case Resolved(id) => rest.(queue := Without(w.queue, id), seen := w.seen + {id}))
    case Answer(id) => w.(queue := Without(w.queue, id), answering := w.answering - {id})
  }

  ghost predicate Init(w: World) {
    w == World(map[], {}, {}, {}, {}, {}, {}, [], false, NotAsked, [], {})
  }

  ghost predicate Run(ws: seq<World>, steps: seq<Step>) {
    && |ws| == |steps| + 1
    && Init(ws[0])
    && forall i :: 0 <= i < |steps| ==> Enabled(ws[i], steps[i]) && ws[i + 1] == Apply(ws[i], steps[i])
  }

  // ----- Invariants -----

  predicate Genuine(w: World, r: Request) {
    r.id in w.issued && w.issued[r.id] == r
  }

  ghost predicate Numbered(w: World) {
    && (forall id :: id in w.issued ==> w.issued[id].id == id != "")
    && (forall a, b :: a in w.issued && b in w.issued && Sequence(w.issued[a]) == Sequence(w.issued[b]) ==> a == b)
  }

  /** An issued request is pending, on its way out, or resolved; the window knows only resolutions that were
      announced, and each of those once. */
  ghost predicate StagesOk(w: World) {
    StageSets(w) && ResolvedOnce(w)
  }

  ghost predicate StageSets(w: World) {
    && (forall id :: id in w.issued <==> id in w.pending || id in w.noticing || id in w.resolved)
    && w.pending !! w.noticing && w.pending !! w.resolved && w.noticing !! w.resolved
    && w.answering <= w.issued.Keys && w.answering !! w.pending
    && w.announcing <= w.issued.Keys && w.seen <= w.resolved && w.late <= w.resolved && w.late !! w.announcing
  }

  ghost predicate ResolvedOnce(w: World) {
    && (forall k :: 0 <= k < |w.channel| && w.channel[k].Resolved? ==>
          w.channel[k].id in w.resolved && w.channel[k].id !in w.seen)
    && (forall j, k :: 0 <= j < k < |w.channel| && w.channel[j].Resolved? && w.channel[k].Resolved? ==>
          w.channel[j].id != w.channel[k].id)
  }

  ghost predicate ContentsOk(w: World) {
    && (forall r :: r in w.queue ==> Genuine(w, r))
    && (forall k :: 0 <= k < |w.channel| && w.channel[k].Requested? ==>
          Genuine(w, w.channel[k].request) && w.channel[k].request.id !in w.announcing)
    && (w.snapshot.InFlight? ==> DistinctIds(w.snapshot.pending) && forall r :: r in w.snapshot.pending ==> Genuine(w, r))
    && DistinctIds(w.queue) && Ordered(w.queue)
    && (!w.listening ==> w.queue == [] && w.channel == [] && w.snapshot == NotAsked && w.seen == {})
  }

  ghost predicate InChannel(w: World, r: Request) {
    exists k :: 0 <= k < |w.channel| && w.channel[k] == Requested(r)
  }

  /** A pending request is shown, or something on its way will show it. */
  ghost predicate Covered(w: World, id: string)
    requires id in w.issued
  {
    id in w.announcing || w.issued[id] in w.queue || InChannel(w, w.issued[id])
    || (w.snapshot.InFlight? && w.issued[id] in w.snapshot.pending)
  }

  ghost predicate NothingLost(w: World) {
    w.snapshot.NotAsked? || forall id :: id in w.pending && id in w.issued ==> Covered(w, id)
  }

  /** The news that the request is gone comes after position `from` of the channel. */
  ghost predicate NewsAhead(w: World, id: string, from: int) {
    id in w.pending || id in w.noticing || id in w.late
    || exists k :: from <= k < |w.channel| && 0 <= k && w.channel[k] == Resolved(id)
  }

  /** The request is pending, or the news that it is gone is coming or has been delivered. */
  ghost predicate GoneIsKnown(w: World, id: string) {
    id in w.pending || id in w.noticing || id in w.seen || Resolved(id) in w.channel
  }

  /** What is shown, or will be, is pending or is followed by the news that it is gone. */
  ghost predicate NothingStale(w: World) {
    && (forall r :: r in w.queue ==> NewsAhead(w, r.id, 0))
    && (forall k :: 0 <= k < |w.channel| && w.channel[k].Requested? ==> NewsAhead(w, w.channel[k].request.id, k))
    && (w.snapshot.InFlight? ==> forall r :: r in w.snapshot.pending ==> GoneIsKnown(w, r.id))
  }

  /** A request is announced once; one that was announced late comes after the news that it is gone. */
  ghost predicate EventsOk(w: World) {
    && (forall j, k :: 0 <= j < k < |w.channel| && w.channel[j].Requested? && w.channel[k].Requested? ==>
          w.channel[j].request.id != w.channel[k].request.id)
    && (forall k :: 0 <= k < |w.channel| && w.channel[k].Resolved? && w.channel[k].id in w.late ==>
          AnnouncedAfter(w, w.channel[k].id, k))
  }

  ghost predicate AnnouncedAfter(w: World, id: string, k: int) {
    exists j :: k < j < |w.channel| && 0 <= j && w.channel[j].Requested? && w.channel[j].request.id == id
  }

  ghost predicate Inv(w: World) {
    Numbered(w) && StagesOk(w) && ContentsOk(w) && NothingLost(w) && NothingStale(w) && EventsOk(w)
  }

  lemma NumberedKept(w: World, step: Step)
    requires Numbered(w) && Enabled(w, step)
    ensures Numbered(Apply(w, step))
  {
    hide MergePending, Without;
  }

  lemma StagesKept(w: World, step: Step)
    requires Numbered(w) && StagesOk(w) && Enabled(w, step)
    ensures StagesOk(Apply(w, step))
  {
    SetsKept(w, step);
    ResolvedStaysOnce(w, step);
  }

  lemma SetsKept(w: World, step: Step)
    requires Numbered(w) && StagesOk(w) && Enabled(w, step)
    ensures StageSets(Apply(w, step))
  {
    hide MergePending, Without, IsStatus, Sequence;
  }

  lemma ResolvedStaysOnce(w: World, step: Step)
    requires StagesOk(w) && Enabled(w, step)
    ensures ResolvedOnce(Apply(w, step))
  {
    hide MergePending, Without, IsStatus, Sequence;
    var w2 := Apply(w, step);
    if step.Deliver? {
      assert forall k :: 0 <= k < |w2.channel| ==> w2.channel[k] == w.channel[k + 1];
    }
  }

  /** What a merge does to a queue of genuine requests: it adds the incoming ones that are not skipped. */
  lemma MergeGenuine(w: World, incoming: seq<Request>, skipped: set<string>)
    requires DistinctIds(w.queue) && DistinctIds(incoming)
    requires forall r :: r in w.queue || r in incoming ==> Genuine(w, r)
    ensures var merged := MergePending(w.queue, incoming, skipped);
            && DistinctIds(merged) && Ordered(merged)
            && (forall r :: r in merged <==> r in w.queue || (r in incoming && r.id !in skipped))
  {
    hide MergePending, DistinctIds, Ordered;
    MergeMeaning(w.queue, incoming, skipped);
    forall r
      ensures r in MergePending(w.queue, incoming, skipped) <==> r in w.queue || (r in incoming && r.id !in skipped)
    {
      OnlyOneGenuine(w, incoming, skipped, r);
    }
  }

  lemma OnlyOneGenuine(w: World, incoming: seq<Request>, skipped: set<string>, r: Request)
    requires DistinctIds(incoming)
    requires forall r :: r in w.queue || r in incoming ==> Genuine(w, r)
    ensures LastFor(incoming, skipped, r) <==> r in incoming && r.id !in skipped
    ensures Given(incoming, skipped, r.id) && r in w.queue ==> r in incoming && r.id !in skipped
  {
    if r in incoming && r.id !in skipped {
      var i :| 0 <= i < |incoming| && incoming[i] == r;
      assert LastFor(incoming, skipped, r);
    }
    if Given(incoming, skipped, r.id) && r in w.queue {
      var i :| 0 <= i < |incoming| && incoming[i].id == r.id;
      assert Genuine(w, incoming[i]) && Genuine(w, r);
    }
  }

  lemma OneDistinct(r: Request)
    ensures DistinctIds([r])
  {
  }

  /** The queue after a step, as a set of requests. */
  lemma QueueAfter(w: World, step: Step)
    requires Numbered(w) && StagesOk(w) && ContentsOk(w) && Enabled(w, step)
    ensures var w2 := Apply(w, step);
            && DistinctIds(w2.queue) && Ordered(w2.queue)
            && (forall r :: r in w2.queue <==>
                  match step
                  case LoadStatus => r in w.queue || (r in w.snapshot.pending && r.id !in w.seen)
                  case Deliver =>
                    if w.channel[0].Requested? then r in w.queue || r == w.channel[0].request
                    else r in w.queue && r.id != w.channel[0].id
                  case Answer(id) => r in w.queue && r.id != id
                  case _ => r in w.queue)
  {
    hide MergePending, Without, DistinctIds, Ordered, IsStatus, Numbered, StagesOk;
    match step
    case LoadStatus => MergeGenuine(w, w.snapshot.pending, w.seen);
    case Deliver =>
      if w.channel[0].Requested? {
        OneDistinct(w.channel[0].request);
        MergeGenuine(w, [w.channel[0].request], {});
      } else {
        WithoutMeaning(w.queue, w.channel[0].id);
      }
    case Answer(id) => WithoutMeaning(w.queue, id);
    case _ =>
  }

  lemma ContentsKept(w: World, step: Step)
    requires Numbered(w) && StagesOk(w) && ContentsOk(w) && Enabled(w, step)
    ensures ContentsOk(Apply(w, step))
  {
    hide MergePending, DistinctIds, Ordered, IsStatus;
    QueueAfter(w, step);
    QueueStaysGenuine(w, step);
    ChannelStaysGenuine(w, step);
    SnapshotStaysGenuine(w, step);
  }

  lemma QueueStaysGenuine(w: World, step: Step)
    requires Numbered(w) && StagesOk(w) && ContentsOk(w) && Enabled(w, step)
    ensures forall r :: r in Apply(w, step).queue ==> Genuine(Apply(w, step), r)
  {
    hide MergePending, Without, DistinctIds, Ordered, IsStatus, StagesOk;
    QueueAfter(w, step);
  }

  lemma ChannelStaysGenuine(w: World, step: Step)
    requires Numbered(w) && StagesOk(w) && ContentsOk(w) && Enabled(w, step)
    ensures var w2 := Apply(w, step);
            forall k :: 0 <= k < |w2.channel| && w2.channel[k].Requested? ==>
                          Genuine(w2, w2.channel[k].request) && w2.channel[k].request.id !in w2.announcing
  {
    hide MergePending, Without, DistinctIds, Ordered, IsStatus;
  }

  lemma SnapshotStaysGenuine(w: World, step: Step)
    requires Numbered(w) && StagesOk(w) && ContentsOk(w) && Enabled(w, step)
    ensures var w2 := Apply(w, step);
            w2.snapshot.InFlight? ==> DistinctIds(w2.snapshot.pending) && forall r :: r in w2.snapshot.pending ==> Genuine(w2, r)
  {
    hide MergePending, Without, DistinctIds, Ordered, StagesOk;
  }

  lemma LostKept(w: World, step: Step)
    requires Numbered(w) && StagesOk(w) && ContentsOk(w) && NothingLost(w) && Enabled(w, step)
    ensures NothingLost(Apply(w, step))
  {
    hide MergePending, Without, DistinctIds, Ordered;
    QueueAfter(w, step);
    var w2 := Apply(w, step);
    if !w2.snapshot.NotAsked? {
      forall id | id in w2.pending && id in w2.issued ensures Covered(w2, id) {
        CoveredAfter(w, step, id);
      }
    }
  }

  lemma CoveredAfter(w: World, step: Step, id: string)
    requires Numbered(w) && StagesOk(w) && ContentsOk(w) && NothingLost(w) && Enabled(w, step)
    requires !Apply(w, step).snapshot.NotAsked? && id in Apply(w, step).pending && id in Apply(w, step).issued
    ensures Covered(Apply(w, step), id)
  {
    hide MergePending, Without, DistinctIds, Ordered;
    QueueAfter(w, step);
    var w2 := Apply(w, step);
    if !step.Submit? && !step.AskStatus? {
      assert Covered(w, id);
      var r := w.issued[id];
      if InChannel(w, r) {
        var k :| 0 <= k < |w.channel| && w.channel[k] == Requested(r);
        if step.Deliver? {
          assert k > 0 ==> w2.channel[k - 1] == Requested(r);
        } else {
          assert w2.channel[k] == Requested(r);
        }
      }
      if step.Announce? && step.id == id {
        assert w2.channel[|w.channel|] == Requested(r);
      }
    }
  }

  /** News that is ahead stays ahead of everything that follows its position. */
  lemma NewsStays(w: World, step: Step, id: string, from: nat)
    requires StagesOk(w) && ContentsOk(w) && Enabled(w, step) && id in w.issued
    requires NewsAhead(w, id, from) && from <= |w.channel|
    requires w.listening
    requires step.Deliver? ==> from > 0 || w.channel[0] != Resolved(id)
    ensures NewsAhead(Apply(w, step), id, if step.Deliver? && from > 0 then from - 1 else from)
  {
    hide MergePending, Without, DistinctIds, Ordered, IsStatus;
    var w2 := Apply(w, step);
    if k :| from <= k < |w.channel| && w.channel[k] == Resolved(id) {
      if step.Deliver? {
        assert k > 0 && w2.channel[k - 1] == Resolved(id);
      } else {
        assert w2.channel[k] == Resolved(id);
      }
    } else if step.Notice? && step.id == id {
      assert w2.channel[|w.channel|] == Resolved(id);
    }
  }

  lemma StaleQueue(w: World, step: Step, r: Request)
    requires Inv(w) && Enabled(w, step) && r in Apply(w, step).queue
    ensures NewsAhead(Apply(w, step), r.id, 0)
  {
    hide MergePending, Without, DistinctIds, Ordered, IsStatus, Apply, Enabled, Numbered, NothingLost, NewsAhead, Genuine;
    QueueAfter(w, step);
    QueueListens(w, step, r);
    StaleSource(w, step, r);
    NewsStays(w, step, r.id, 0);
  }

  lemma QueueListens(w: World, step: Step, r: Request)
    requires StagesOk(w) && ContentsOk(w) && Enabled(w, step) && r in Apply(w, step).queue
    ensures w.listening
  {
    hide MergePending, DistinctIds, Ordered, IsStatus;
  }

  /** A request that is in the queue after a step had its news ahead before it. */
  lemma StaleSource(w: World, step: Step, r: Request)
    requires Inv(w) && Enabled(w, step) && r in Apply(w, step).queue
    ensures r.id in w.issued && NewsAhead(w, r.id, 0)
    ensures step.Deliver? ==> w.channel[0] != Resolved(r.id)
  {
    hide MergePending, Without, DistinctIds, Ordered, IsStatus, NothingLost;
    QueueAfter(w, step);
    if r !in w.queue && step.Deliver? {
      assert w.channel[0] == Requested(r);
    }
  }

  lemma StaleChannel(w: World, step: Step, k: nat)
    requires Inv(w) && Enabled(w, step) && k < |Apply(w, step).channel| && Apply(w, step).channel[k].Requested?
    ensures NewsAhead(Apply(w, step), Apply(w, step).channel[k].request.id, k)
  {
    hide MergePending, Without, DistinctIds, Ordered, IsStatus, NothingLost;
    var w2 := Apply(w, step);
    var from := if step.Deliver? then k + 1 else k;
    if from < |w.channel| {
      assert w2.channel[k] == w.channel[from];
      NewsStays(w, step, w.channel[from].request.id, from);
    }
  }

  lemma StaleSnapshot(w: World, step: Step, r: Request)
    requires Inv(w) && Enabled(w, step)
    requires Apply(w, step).snapshot.InFlight? && r in Apply(w, step).snapshot.pending
    ensures GoneIsKnown(Apply(w, step), r.id)
  {
    hide MergePending, Without, DistinctIds, Ordered, NothingLost, NewsAhead, EventsOk;
    if !step.AskStatus? {
      assert GoneIsKnown(w, r.id) && w.listening;
      if step.Deliver? {
        assert w.channel == [w.channel[0]] + w.channel[1..];
      }
    }
  }

  lemma StaleKept(w: World, step: Step)
    requires Inv(w) && Enabled(w, step)
    ensures NothingStale(Apply(w, step))
  {
    hide Inv, Apply, Enabled, NewsAhead;
    var w2 := Apply(w, step);
    forall r | r in w2.queue ensures NewsAhead(w2, r.id, 0) {
      StaleQueue(w, step, r);
    }
    forall k | 0 <= k < |w2.channel| && w2.channel[k].Requested? ensures NewsAhead(w2, w2.channel[k].request.id, k) {
      StaleChannel(w, step, k);
    }
    if w2.snapshot.InFlight? {
      forall r | r in w2.snapshot.pending ensures GoneIsKnown(w2, r.id) {
        StaleSnapshot(w, step, r);
      }
    }
  }

  lemma EventsKept(w: World, step: Step)
    requires Numbered(w) && StagesOk(w) && ContentsOk(w) && EventsOk(w) && Enabled(w, step)
    ensures EventsOk(Apply(w, step))
  {
    hide MergePending, Without, DistinctIds, Ordered, IsStatus, AnnouncedAfter;
    var w2 := Apply(w, step);
    forall k | 0 <= k < |w2.channel| && w2.channel[k].Resolved? && w2.channel[k].id in w2.late
      ensures AnnouncedAfter(w2, w2.channel[k].id, k)
    {
      AnnouncedStillAfter(w, step, k);
    }
  }

  lemma AnnouncedStillAfter(w: World, step: Step, k: nat)
    requires Numbered(w) && StagesOk(w) && ContentsOk(w) && EventsOk(w) && Enabled(w, step)
    requires var w2 := Apply(w, step);
             k < |w2.channel| && w2.channel[k].Resolved? && w2.channel[k].id in w2.late
    ensures AnnouncedAfter(Apply(w, step), Apply(w, step).channel[k].id, k)
  {
    hide MergePending, Without, IsStatus, DistinctIds, Ordered, Genuine, AnnouncedAfter;
    var w2 := Apply(w, step);
    var id := w2.channel[k].id;
    if id in w.late {
      var from := if step.Deliver? then k + 1 else k;
      assert from < |w.channel| && w2.channel[k] == w.channel[from];
      AnnouncementMoves(w, step, id, from);
    } else {
      assert step == Announce(id) && w.listening;
      assert w2.channel[|w.channel|] == Requested(w.issued[id]);
      LastIsAfter(w2, id, k);
    }
  }

  lemma LastIsAfter(w: World, id: string, k: nat)
    requires k < |w.channel| - 1 && w.channel[|w.channel| - 1].Requested? && w.channel[|w.channel| - 1].request.id == id
    ensures AnnouncedAfter(w, id, k)
  {
  }

  lemma AnnouncementMoves(w: World, step: Step, id: string, from: nat)
    requires Enabled(w, step) && AnnouncedAfter(w, id, from) && (step.Deliver? ==> from > 0)
    ensures AnnouncedAfter(Apply(w, step), id, if step.Deliver? then from - 1 else from)
  {
    hide MergePending, Without, IsStatus;
    var j :| from < j < |w.channel| && 0 <= j && w.channel[j].Requested? && w.channel[j].request.id == id;
    assert Apply(w, step).channel[if step.Deliver? then j - 1 else j] == w.channel[j];
  }

  lemma {:induction false} RunKeeps(ws: seq<World>, steps: seq<Step>, i: nat)
    requires Run(ws, steps) && i < |ws|
    ensures Inv(ws[i])
  {
    hide Apply, Enabled, Numbered, StagesOk, ContentsOk, NothingLost, NothingStale, EventsOk;
    if i == 0 {
      InitOk(ws[0]);
    } else {
      var w, step := ws[i - 1], steps[i - 1];
      RunKeeps(ws, steps, i - 1);
      NumberedKept(w, step);
      StagesKept(w, step);
      ContentsKept(w, step);
      LostKept(w, step);
      StaleKept(w, step);
      EventsKept(w, step);
    }
  }

  lemma InitOk(w: World)
    requires Init(w)
    ensures Inv(w)
  {
  }

  ghost predicate Shows(store: ApprovalStore, w: World)
    reads store
  {
    store.queue == w.queue && store.resolvedDuringInitialization == w.seen && NoRepeat(store.resolvingIds)
  }

  /** The store object does at every step what the run says of the window. */
  method Handle(store: ApprovalStore, w: World, step: Step)
    requires Inv(w) && Enabled(w, step) && Shows(store, w)
    modifies store
    ensures store.Valid() && Shows(store, Apply(w, step))
  {
    hide MergePending, Without, IsStatus, Numbered, NothingLost, NothingStale, EventsOk, DistinctIds, Ordered, NoRepeat;
    match step {
      case LoadStatus => store.OnStatus(w.snapshot.pending);
      case Deliver =>
        match w.channel[0] {
          case Requested(r) => store.OnRequest(r);
          case Resolved(id) =>
            NewsIsNamed(w, id);
            store.OnResolved(id);
        }
      case Resolve(id, _, byUser) =>
        if byUser {
          store.BeginResolve(id);
        }
      case Answer(id) => store.EndResolve(id, None);
      case _ =>
    }
  }

  lemma NewsIsNamed(w: World, id: string)
    requires Numbered(w) && StagesOk(w) && w.channel != [] && w.channel[0] == Resolved(id)
    ensures id != ""
  {
    assert id in w.issued;
  }

  // ----- Over whole runs -----

  lemma SeenIsGone(w: World, r: Request)
    requires StagesOk(w) && NothingStale(w) && r in w.queue && r.id in w.seen
    ensures r.id in w.late
  {
    assert NewsAhead(w, r.id, 0);
  }

  lemma {:induction false} SeenStays(ws: seq<World>, steps: seq<Step>, i: nat, j: nat)
    requires Run(ws, steps) && i <= j < |ws|
    ensures ws[i].seen <= ws[j].seen && ws[i].late <= ws[j].late
  {
    if i < j {
      SeenStays(ws, steps, i, j - 1);
      SeenStep(ws[j - 1], steps[j - 1]);
    }
  }

  lemma SeenStep(w: World, step: Step)
    requires Enabled(w, step)
    ensures w.seen <= Apply(w, step).seen && w.late <= Apply(w, step).late
  {
    hide MergePending, Without;
  }

  /** A request whose resolved event was delivered never comes back into the queue, whatever snapshot is still
      on its way, unless the gateway announced it only after it had announced its resolution. */
  lemma ResolvedNeverReappears(ws: seq<World>, steps: seq<Step>, i: nat, j: nat, r: Request)
    requires Run(ws, steps) && i <= j < |ws|
    requires r.id in ws[i].seen && r.id !in ws[j].late
    ensures r !in ws[j].queue
  {
    hide Run, NothingStale, StagesOk, ContentsOk, NothingLost;
    SeenStays(ws, steps, i, j);
    RunKeeps(ws, steps, j);
    if r in ws[j].queue {
      SeenIsGone(ws[j], r);
    }
  }

  // ----- Exactly when a resolved request comes back -----

  lemma {:induction false} IssuedStays(ws: seq<World>, steps: seq<Step>, i: nat, j: nat, id: string)
    requires Run(ws, steps) && i <= j < |ws| && id in ws[i].issued
    ensures id in ws[j].issued && ws[j].issued[id] == ws[i].issued[id]
    ensures id !in ws[i].announcing ==> id !in ws[j].announcing
    ensures id !in ws[i].pending ==> id !in ws[j].pending
  {
    hide Apply, Enabled;
    if i < j {
      IssuedStays(ws, steps, i, j - 1, id);
      IssuedStep(ws[j - 1], steps[j - 1], id);
    }
  }

  lemma IssuedStep(w: World, step: Step, id: string)
    requires Enabled(w, step) && id in w.issued
    ensures id in Apply(w, step).issued && Apply(w, step).issued[id] == w.issued[id]
    ensures id !in w.announcing ==> id !in Apply(w, step).announcing
    ensures id !in w.pending ==> id !in Apply(w, step).pending
  {
    hide MergePending, Without, IsStatus;
  }

  /** The resolved event is delivered, with the step into `w2`; a late announcement is then still to come. */
  lemma AtDelivery(w: World, step: Step, id: string)
    requires Inv(w) && Enabled(w, step) && id !in w.seen && id in Apply(w, step).seen
    ensures step.Deliver? && id in w.issued
    ensures id in Apply(w, step).late ==> InChannel(Apply(w, step), w.issued[id])
  {
    hide MergePending, Without, DistinctIds, Ordered, IsStatus, NothingLost, NothingStale;
    assert step.Deliver? && w.channel[0] == Resolved(id);
    if id in w.late {
      assert AnnouncedAfter(w, id, 0);
      var j :| 0 < j < |w.channel| && w.channel[j].Requested? && w.channel[j].request.id == id;
      assert Apply(w, step).channel[j - 1] == w.channel[j] == Requested(w.issued[id]);
    }
  }

  /** What a step does to a late announcement that is on its way: it stays, or it is delivered and shown. */
  lemma ComingOrShown(w: World, step: Step, id: string)
    requires Inv(w) && Enabled(w, step) && id in w.issued && InChannel(w, w.issued[id])
    ensures InChannel(Apply(w, step), w.issued[id]) || w.issued[id] in Apply(w, step).queue
  {
    hide MergePending, Without, DistinctIds, Ordered, IsStatus, NothingLost, NothingStale, EventsOk;
    QueueAfter(w, step);
    var k :| 0 <= k < |w.channel| && w.channel[k] == Requested(w.issued[id]);
    if !step.Deliver? {
      assert Apply(w, step).channel[k] == w.channel[k];
    } else if k > 0 {
      assert Apply(w, step).channel[k - 1] == w.channel[k];
    }
  }

  lemma LateIsSent(w: World, step: Step, id: string)
    requires Inv(w) && Enabled(w, step) && id !in w.late && id in Apply(w, step).late && id in w.seen
    ensures id in w.issued && InChannel(Apply(w, step), w.issued[id])
  {
    hide MergePending, Without, DistinctIds, Ordered, IsStatus, NothingLost, NothingStale, EventsOk;
    assert Apply(w, step).channel[|w.channel|] == Requested(w.issued[id]);
  }

  ghost predicate BackIn(ws: seq<World>, i: nat, n: nat, r: Request)
    requires n < |ws|
  {
    exists j :: i <= j <= n && r in ws[j].queue
  }

  lemma {:induction false} LateIsComing(ws: seq<World>, steps: seq<Step>, i: nat, m: nat, id: string)
    requires Run(ws, steps) && 0 < i <= m < |ws|
    requires id !in ws[i - 1].seen && id in ws[i].seen
    ensures id in ws[i].issued
    ensures id in ws[m].late ==> InChannel(ws[m], ws[i].issued[id]) || BackIn(ws, i, m, ws[i].issued[id])
  {
    hide Apply, Enabled, Inv, InChannel;
    RunKeeps(ws, steps, i - 1);
    AtDelivery(ws[i - 1], steps[i - 1], id);
    IssuedStays(ws, steps, i - 1, m, id);
    IssuedStays(ws, steps, i - 1, i, id);
    if i < m {
      LateIsComing(ws, steps, i, m - 1, id);
      IssuedStays(ws, steps, i - 1, m - 1, id);
      RunKeeps(ws, steps, m - 1);
      SeenStays(ws, steps, i, m - 1);
      var w, step := ws[m - 1], steps[m - 1];
      if id in ws[m].late && id !in w.late {
        LateIsSent(w, step, id);
      } else if id in ws[m].late && InChannel(w, w.issued[id]) {
        ComingOrShown(w, step, id);
      }
    }
  }

  /** From the moment its resolved event is delivered until all events have been, a request is shown again if and
      only if the gateway announced it after it had announced its resolution. */
  lemma ReappearsExactly(ws: seq<World>, steps: seq<Step>, i: nat, n: nat, id: string)
    requires Run(ws, steps) && 0 < i <= n < |ws|
    requires id !in ws[i - 1].seen && id in ws[i].seen && ws[n].channel == []
    ensures id in ws[i].issued
    ensures BackIn(ws, i, n, ws[i].issued[id]) <==> id in ws[n].late
  {
    hide Run, Inv;
    LateIsComing(ws, steps, i, n, id);
    var r := ws[i].issued[id];
    RunKeeps(ws, steps, i);
    IssuedIsNamed(ws[i], id);
    if BackIn(ws, i, n, r) {
      var j :| i <= j <= n && r in ws[j].queue;
      SeenStays(ws, steps, j, n);
      if id !in ws[n].late {
        ResolvedNeverReappears(ws, steps, i, j, r);
      }
    }
  }

  lemma IssuedIsNamed(w: World, id: string)
    requires Inv(w) && id in w.issued
    ensures w.issued[id].id == id
  {
    hide StagesOk, ContentsOk, NothingLost, NothingStale, EventsOk;
  }

  /** Every event was emitted and delivered, and the snapshot has arrived. */
  predicate Quiescent(w: World) {
    w.snapshot.Loaded? && w.channel == [] && w.announcing == {} && w.noticing == {}
  }

  /** When everything has been delivered, every pending request is shown, in order, and whatever else is shown was
      announced after its own resolution. */
  lemma SettledQueue(ws: seq<World>, steps: seq<Step>, i: nat)
    requires Run(ws, steps) && i < |ws| && Quiescent(ws[i])
    ensures var w := ws[i];
            && DistinctIds(w.queue) && Ordered(w.queue)
            && (forall id :: id in w.pending ==> id in w.issued && w.issued[id] in w.queue)
            && (forall r :: r in w.queue ==> Genuine(w, r) && (r.id in w.pending || r.id in w.late))
            && ((forall r :: r in w.queue ==> r.id !in w.late) <==> IsStatus(w.queue, w))
  {
    hide Run, DistinctIds, Ordered;
    RunKeeps(ws, steps, i);
    var w := ws[i];
    forall id | id in w.pending ensures id in w.issued && w.issued[id] in w.queue {
      assert Covered(w, id);
    }
    forall r | r in w.queue ensures Genuine(w, r) && (r.id in w.pending || r.id in w.late) {
      assert NewsAhead(w, r.id, 0);
    }
  }

  /** Step `k` delivers the announcement of the request. */
  ghost predicate Delivers(ws: seq<World>, steps: seq<Step>, k: nat, id: string)
    requires k < |steps| && |ws| == |steps| + 1
  {
    steps[k] == Deliver && ws[k].channel != [] && ws[k].channel[0].Requested? && ws[k].channel[0].request.id == id
  }

  ghost predicate AnsweredBetween(steps: seq<Step>, k: int, n: nat, id: string)
    requires n <= |steps|
  {
    exists m :: k < m < n && 0 <= m && steps[m] == Answer(id)
  }

  /** The request was announced late, it is shown, and no event about it is on its way. */
  ghost predicate Stuck(w: World, id: string) {
    && id in w.issued && id in w.late && w.issued[id] in w.queue
    && Resolved(id) !in w.channel
    && forall k :: 0 <= k < |w.channel| && w.channel[k].Requested? ==> w.channel[k].request.id != id
  }

  lemma AnnouncedOnce(w: World, id: string)
    requires EventsOk(w) && w.channel != [] && w.channel[0].Requested? && w.channel[0].request.id == id
    ensures forall k :: 0 < k < |w.channel| && w.channel[k].Requested? ==> w.channel[k].request.id != id
    ensures forall k :: k >= 0 ==> !AnnouncedAfter(w, id, k)
  {
  }

  lemma StuckByDelivery(w: World, step: Step, id: string)
    requires Inv(w) && Enabled(w, step) && step.Deliver? && id in w.late
    requires w.channel[0].Requested? && w.channel[0].request.id == id
    ensures Stuck(Apply(w, step), id)
  {
    hide MergePending, Without, DistinctIds, Ordered, IsStatus, NothingLost, NothingStale, AnnouncedAfter;
    QueueAfter(w, step);
    AnnouncedOnce(w, id);
    var w2 := Apply(w, step);
    assert forall k :: 0 <= k < |w2.channel| ==> w2.channel[k] == w.channel[k + 1];
  }

  /** Only the answer to a decision takes it away. */
  lemma StuckStays(w: World, step: Step, id: string)
    requires Inv(w) && Enabled(w, step) && Stuck(w, id) && step != Answer(id)
    ensures Stuck(Apply(w, step), id)
  {
    hide MergePending, Without, DistinctIds, Ordered, IsStatus, NothingLost, NothingStale, EventsOk;
    QueueAfter(w, step);
    IssuedStep(w, step, id);
    var w2 := Apply(w, step);
    if step.Deliver? {
      assert w.channel == [w.channel[0]] + w2.channel;
      assert forall k :: 0 <= k < |w2.channel| ==> w2.channel[k] == w.channel[k + 1];
    }
  }

  lemma {:induction false} StuckUnlessAnswered(ws: seq<World>, steps: seq<Step>, j: nat, n: nat, id: string)
    requires Run(ws, steps) && j <= n < |ws| && Stuck(ws[j], id)
    requires !AnsweredBetween(steps, j - 1, n, id)
    ensures Stuck(ws[n], id)
  {
    hide Apply, Enabled, Inv, Stuck;
    if j < n {
      assert steps[n - 1] != Answer(id);
      StuckUnlessAnswered(ws, steps, j, n - 1, id);
      RunKeeps(ws, steps, n - 1);
      StuckStays(ws[n - 1], steps[n - 1], id);
    }
  }

  /** Lateness is decided when the request is announced. */
  lemma LateAtDelivery(ws: seq<World>, steps: seq<Step>, k: nat, n: nat, id: string)
    requires Run(ws, steps) && k < n < |ws| && Delivers(ws, steps, k, id) && id in ws[n].late
    ensures id in ws[k].late
  {
    hide Apply, Enabled, Numbered, StagesOk, NothingLost, NothingStale, EventsOk;
    RunKeeps(ws, steps, k);
    assert Genuine(ws[k], ws[k].channel[0].request);
    LateIsFixed(ws, steps, k, n, id);
  }

  lemma {:induction false} LateIsFixed(ws: seq<World>, steps: seq<Step>, k: nat, n: nat, id: string)
    requires Run(ws, steps) && k <= n < |ws| && id in ws[k].issued && id !in ws[k].announcing
    ensures id in ws[n].late ==> id in ws[k].late
  {
    hide Apply, Enabled;
    if k < n {
      LateIsFixed(ws, steps, k, n - 1, id);
      IssuedStays(ws, steps, k, n - 1, id);
      LateNeedsAnnouncing(ws[n - 1], steps[n - 1], id);
    }
  }

  lemma LateNeedsAnnouncing(w: World, step: Step, id: string)
    requires Enabled(w, step) && id !in w.announcing
    ensures id in Apply(w, step).late ==> id in w.late
  {
    hide MergePending, Without, IsStatus;
  }

  /** How a late request came to be shown when no news about it is on its way: its announcement was delivered, or it
      was shown like that before. */
  lemma HowItIsShown(w: World, step: Step, id: string)
    requires Inv(w) && Enabled(w, step)
    requires var w2 := Apply(w, step);
             id in w2.issued && id in w2.late && w2.issued[id] in w2.queue && Resolved(id) !in w2.channel
    ensures step != Answer(id)
    ensures || (step.Deliver? && w.channel != [] && w.channel[0].Requested? && w.channel[0].request.id == id)
            || (id in w.issued && id in w.late && w.issued[id] in w.queue && Resolved(id) !in w.channel)
  {
    hide MergePending, Without, DistinctIds, Ordered, IsStatus, NothingLost, EventsOk;
    QueueAfter(w, step);
    var w2 := Apply(w, step);
    var r := w2.issued[id];
    assert r.id == id && id in w.issued && w.issued[id] == r;
    if step.Deliver? {
      assert w.channel == [w.channel[0]] + w2.channel;
      assert w.channel[0] != Resolved(id);
    } else {
      assert Resolved(id) !in w.channel;
      assert r in w.queue ==> NewsAhead(w, id, 0);
      assert step.LoadStatus? && r in w.snapshot.pending ==> GoneIsKnown(w, id);
    }
  }

  lemma {:induction false} ShownAfterDelivery(ws: seq<World>, steps: seq<Step>, n: nat, id: string) returns (k: nat)
    requires Run(ws, steps) && n < |ws|
    requires id in ws[n].issued && id in ws[n].late && ws[n].issued[id] in ws[n].queue && Resolved(id) !in ws[n].channel
    ensures k < n && Delivers(ws, steps, k, id) && !AnsweredBetween(steps, k, n, id)
  {
    hide Apply, Enabled, Inv;
    assert n > 0;
    var w, step := ws[n - 1], steps[n - 1];
    RunKeeps(ws, steps, n - 1);
    HowItIsShown(w, step, id);
    if step.Deliver? && w.channel != [] && w.channel[0].Requested? && w.channel[0].request.id == id {
      k := n - 1;
    } else {
      k := ShownAfterDelivery(ws, steps, n - 1, id);
    }
  }

  /** So when everything has been delivered, the queue is the gateway's list if and only if every late announcement
      that reached the window was answered afterwards. */
  lemma SettledExactly(ws: seq<World>, steps: seq<Step>, n: nat)
    requires Run(ws, steps) && n < |ws| && Quiescent(ws[n])
    ensures IsStatus(ws[n].queue, ws[n]) <==>
            forall k, id :: 0 <= k < n && id in ws[n].late && Delivers(ws, steps, k, id) ==> AnsweredBetween(steps, k, n, id)
  {
    hide Apply, Enabled, Init, Inv, IsStatus, Delivers, AnsweredBetween;
    SettledQueue(ws, steps, n);
    RunKeeps(ws, steps, n);
    if !IsStatus(ws[n].queue, ws[n]) {
      var r :| r in ws[n].queue && r.id in ws[n].late;
      var k := ShownAfterDelivery(ws, steps, n, r.id);
    }
    forall k, id | 0 <= k < n && id in ws[n].late && Delivers(ws, steps, k, id) && !AnsweredBetween(steps, k, n, id)
      ensures exists r :: r in ws[n].queue && r.id in ws[n].late
    {
      DeliveredIsShown(ws, steps, k, n, id);
    }
  }

  lemma DeliveredIsShown(ws: seq<World>, steps: seq<Step>, k: nat, n: nat, id: string)
    requires Run(ws, steps) && k < n < |ws| && id in ws[n].late && Delivers(ws, steps, k, id)
    requires !AnsweredBetween(steps, k, n, id)
    ensures id in ws[n].issued && ws[n].issued[id].id == id && ws[n].issued[id] in ws[n].queue
  {
    hide Apply, Enabled, Inv;
    LateAtDelivery(ws, steps, k, n, id);
    RunKeeps(ws, steps, k);
    assert Enabled(ws[k], steps[k]) && ws[k + 1] == Apply(ws[k], steps[k]);
    StuckByDelivery(ws[k], steps[k], id);
    StuckUnlessAnswered(ws, steps, k + 1, n, id);
    RunKeeps(ws, steps, n);
    IssuedIsNamed(ws[n], id);
  }

  /** Without a decision of the user under way, a late request that is shown is shown for good. */
  lemma {:induction false} ShownForGood(ws: seq<World>, steps: seq<Step>, j: nat, n: nat, id: string)
    requires Run(ws, steps) && j <= n < |ws| && Stuck(ws[j], id) && id !in ws[j].answering
    ensures ws[j].issued[id] in ws[n].queue && Stuck(ws[n], id) && id !in ws[n].answering
  {
    hide Apply, Enabled, Inv, Stuck;
    StuckIsIssued(ws[j], id);
    IssuedStays(ws, steps, j, n, id);
    if j < n {
      ShownForGood(ws, steps, j, n - 1, id);
      RunKeeps(ws, steps, n - 1);
      NoAnswer(ws[n - 1], steps[n - 1], id);
      StuckStays(ws[n - 1], steps[n - 1], id);
    }
    StuckIsIssued(ws[n], id);
  }

  lemma StuckIsIssued(w: World, id: string)
    requires Stuck(w, id)
    ensures id in w.issued && w.issued[id] in w.queue
  {
  }

  lemma NoAnswer(w: World, step: Step, id: string)
    requires Inv(w) && Enabled(w, step) && Stuck(w, id) && id !in w.answering
    ensures step != Answer(id) && id !in Apply(w, step).answering
  {
    hide MergePending, Without, IsStatus, ContentsOk, NothingLost, NothingStale, EventsOk;
  }

  lemma SomeMember(requests: seq<Request>)
    ensures requests != [] ==> exists r :: r in requests
  {
    assert requests != [] ==> requests[0] in requests;
  }

  /** There is one such list: with nothing announced late, the window shows what the gateway would report. */
  lemma {:induction false} StatusIsUnique(a: seq<Request>, b: seq<Request>)
    requires DistinctIds(a) && Ordered(a) && DistinctIds(b) && Ordered(b)
    requires forall r :: r in a <==> r in b
    requires forall r, s :: r in a && s in a && Sequence(r) == Sequence(s) ==> r == s
    ensures a == b
  {
    SomeMember(a);
    SomeMember(b);
    if a != [] {
      assert a == [a[0]] + a[1..] && b == [b[0]] + b[1..];
      PrependOrdered(a[0], a[1..]);
      PrependOrdered(b[0], b[1..]);
      PrependDistinct(a[0], a[1..]);
      PrependDistinct(b[0], b[1..]);
      assert a[0] in b && b[0] in a;
      assert a[0] == b[0];
      assert forall r :: r in a[1..] <==> r in a && r.id != a[0].id;
      assert forall r :: r in b[1..] <==> r in b && r.id != b[0].id;
      StatusIsUnique(a[1..], b[1..]);
    }
  }

  lemma SettledQueueIsStatus(ws: seq<World>, steps: seq<Step>, i: nat, status: seq<Request>)
    requires Run(ws, steps) && i < |ws| && Quiescent(ws[i]) && ws[i].late == {}
    requires IsStatus(status, ws[i])
    ensures ws[i].queue == status
  {
    hide Run, DistinctIds, Ordered, StagesOk, ContentsOk, NothingLost, NothingStale;
    RunKeeps(ws, steps, i);
    SettledQueue(ws, steps, i);
    StatusIsUnique(ws[i].queue, status);
  }

  // ----- A late announcement -----

  /** The user finds a request in the snapshot, decides, and the decision is confirmed; the gateway's thread
      announces the request only now. */
  function LateStep(b: Request, i: nat): Step {
    match i
    case 0 => Listen
    case 1 => Submit(b)
    case 2 => AskStatus([b])
    case 3 => LoadStatus
    case 4 => Resolve(b.id, false, true)
    case 5 => Notice(b.id)
    case 6 => Deliver
    case 7 => Answer(b.id)
    case 8 => Announce(b.id)
    case _ => Deliver
  }

  function LateWorld(b: Request, i: nat): World {
    var empty := World(map[], {}, {}, {}, {}, {}, {}, [], false, NotAsked, [], {});
    var submitted := World(map[b.id := b], {b.id}, {}, {b.id}, {}, {}, {}, [], true, NotAsked, [], {});
    var resolved := World(map[b.id := b], {}, {b.id}, {b.id}, {}, {b.id}, {}, [], true, Loaded, [], {b.id});
    match i
    case 0 => empty
    case 1 => empty.(listening := true)
    case 2 => submitted
    case 3 => submitted.(snapshot := InFlight([b]))
    case 4 => submitted.(snapshot := Loaded, queue := [b])
    case 5 => resolved.(noticing := {b.id}, resolved := {}, queue := [b], seen := {})
    case 6 => resolved.(channel := [Resolved(b.id)], queue := [b], seen := {})
    case 7 => resolved
    case 8 => resolved.(answering := {})
    case 9 => resolved.(answering := {}, announcing := {}, late := {b.id}, channel := [Requested(b)])
    case _ => resolved.(answering := {}, announcing := {}, late := {b.id}, queue := [b])
  }

  lemma MergeSmall(b: Request)
    ensures MergePending([], [b], {}) == [b]
    ensures Without([b], b.id) == [] && Without([], b.id) == []
  {
    assert PutAll([], [b], {}) == Put(PutAll([], [b][..0], {}), b);
    assert Sort([b]) == InsertSorted(Sort([b][..0]), b);
  }

  lemma LateStepTaken(b: Request, i: nat)
    requires b.id != "" && i < 10
    ensures Enabled(LateWorld(b, i), LateStep(b, i))
    ensures LateWorld(b, i + 1) == Apply(LateWorld(b, i), LateStep(b, i))
  {
    hide MergePending, Without;
    MergeSmall(b);
    OneDistinct(b);
  }

  /** Such announcements occur: for any request there is a run in which the user decides about it and the decision
      is confirmed, and after which everything has been delivered and the dialog asks about it again, for good. */
  lemma LateAnnouncementComesBack(b: Request)
    requires b.id != ""
    ensures exists ws: seq<World>, steps: seq<Step> ::
              && Run(ws, steps) && |ws| == 11
              && b.id in ws[9].seen && Quiescent(ws[10]) && b.id !in ws[10].pending && b in ws[10].queue
              && Stuck(ws[10], b.id) && b.id !in ws[10].answering
  {
    hide Enabled, Apply;
    var ws := seq(11, i requires 0 <= i < 11 => LateWorld(b, i));
    var steps := seq(10, i requires 0 <= i < 10 => LateStep(b, i));
    forall i | 0 <= i < 10 ensures Enabled(ws[i], steps[i]) && ws[i + 1] == Apply(ws[i], steps[i]) {
      LateStepTaken(b, i);
    }
    assert Run(ws, steps);
  }
}
