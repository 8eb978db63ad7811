/** Runs of the hand-off between detached windows and the main window. Requests that were sent can arrive late,
    in any order and any number of times, or never; acknowledgements likewise. All windows read one clock. */
module DockRuns {
  import opened Wrappers
  import opened MosaicTree
  import opened Docking
  import opened WorkspaceRemap
  import opened DockHandoff

  const ATTEMPTS := 4
  const INTERVAL := 2000
  const LIFETIME := 7000

  datatype Phase = Pending | Answered(accepted: bool) | OutOfAttempts | SendFailed

  datatype Sender = Sender(request: Request, started: int, attempts: nat, phase: Phase)

  /** An acknowledgement and how many decisions the main window had made by then. */
  datatype AckRecord = AckRecord(id: string, accepted: bool, at: nat)

  datatype World = World(
    now: int,
    main: Main,
    opening: map<string, string>,
    labels: set<string>,
    senders: map<string, Sender>,
    sent: set<string>,
    acks: set<AckRecord>,
    log: seq<(string, bool)>)

  datatype Step =
    | Tick(later: int)
    | OpenWindow(key: string, name: string)
    | Commit(key: string)
    | Abort(key: string)
    | Release(key: string)
    | Edit(op: LayoutOp)
    | Focus(pane: Option<string>)
    | Ask(request: Request)
    | Send(id: string)
    | GiveUp(id: string)
    | FailToSend(id: string)
    | Arrive(id: string, hydrates: bool)
    | Resume(id: string, hit: Hit, hydrates: bool)
    | Hear(id: string, accepted: bool)

  predicate PendingSender(w: World, id: string) {
    id in w.senders && w.senders[id].phase == Pending
  }

  ghost predicate Enabled(w: World, step: Step) {
    match step
    case Tick(later) => w.now <= later
    // Labels are random; a window is opened for a pane that no window owns and that is not being opened.
    case OpenWindow(key, name) => name !in w.labels && key !in w.opening && key !in w.main.owners
    case Commit(key) => key in w.opening
    case Abort(key) => key in w.opening
    case Release(key) => true
    case Edit(op) => true
    case Focus(pane) => true
    case Ask(request) =>
      request.id != "" && request.id !in w.senders && request.source in w.labels && request.expiresAt == w.now + LIFETIME
    case Send(id) =>
      PendingSender(w, id) && w.senders[id].attempts < ATTEMPTS
      && w.senders[id].started + INTERVAL * w.senders[id].attempts <= w.now
    case GiveUp(id) =>
      PendingSender(w, id) && w.senders[id].attempts == ATTEMPTS && w.senders[id].started + INTERVAL * ATTEMPTS <= w.now
    case FailToSend(id) => PendingSender(w, id)
    case Arrive(id, _) => id in w.sent && id in w.senders
    case Resume(id, _, _) => id in w.main.waiting && id in w.senders
    case Hear(id, accepted) => PendingSender(w, id) && exists n :: AckRecord(id, accepted, n) in w.acks
  }

  function WithPhase(w: World, id: string, phase: Phase): World
    requires id in w.senders
  {
    w.(senders := w.senders[id := w.senders[id].(phase := phase)])
  }

  /** The handler's effect: its new state, a new decision in the history, and the acknowledgement it sends. */
  function Handled(w: World, id: string, decides: bool, handled: (Main, Reply)): World {
    match handled.1
    case Ack(accepted) =>
      var log := if decides then w.log + [(id, accepted)] else w.log;
      w.(main := handled.0, log := log, acks := w.acks + {AckRecord(id, accepted, |log|)})
    case _ => w.(main := handled.0)
  }

  function Apply(w: World, step: Step): World
    requires Enabled(w, step)
  {
    match step
    case Tick(later) => w.(now := later)
    case OpenWindow(key, name) => w.(opening := w.opening[key := name], labels := w.labels + {name})
    case Commit(key) =>
      w.(opening := w.opening - {key}, main := w.main.(owners := w.main.owners[key := w.opening[key]]))
    case Abort(key) => w.(opening := w.opening - {key})
    case Release(key) => w.(main := w.main.(owners := w.main.owners - {key}))
    case Edit(op) => w.(main := w.main.(tree := ApplyOp(w.main.tree, op)))
    case Focus(pane) => w.(main := w.main.(focused := pane))
    case Ask(request) => w.(senders := w.senders[request.id := Sender(request, w.now, 0, Pending)])
    case Send(id) =>
      var sender := w.senders[id];
      w.(senders := w.senders[id := sender.(attempts := sender.attempts + 1)], sent := w.sent + {id})
    case GiveUp(id) => WithPhase(w, id, OutOfAttempts)
    case FailToSend(id) => WithPhase(w, id, SendFailed)
    case Arrive(id, hydrates) =>
      Handled(w, id, Decision(w.main.decisions, id).None?, OnDrop(w.main, w.senders[id].request, hydrates, w.now))
    case Resume(id, hit, hydrates) => Handled(w, id, true, OnHit(w.main, w.senders[id].request, hit, hydrates, w.now))
    case Hear(id, accepted) => WithPhase(w, id, Answered(accepted))
  }

  ghost predicate Init(w: World) {
    && w.main.decisions == [] && w.main.waiting == {} && w.main.owners == map[]
    && Distinct(GetLeaves(w.main.tree)) && CountLeaves(w.main.tree) <= MAX_TERMINAL_PANES
    && w.opening == map[] && w.senders == map[] && w.sent == {} && w.acks == {} && w.log == []
  }

  ghost predicate Run(ws: seq<World>, steps: seq<Step>) {
    && |ws| == |steps| + 1
    && Init(ws[0])
    && forall i :: 0 <= i < |steps| ==> Enabled(ws[i], steps[i]) && ws[i + 1] == Apply(ws[i], steps[i])
  }

  // ----- Invariants -----

  ghost predicate LayoutOk(w: World) {
    Distinct(GetLeaves(w.main.tree)) && CountLeaves(w.main.tree) <= MAX_TERMINAL_PANES
  }

  /** A label belongs to one pane only, and is spent once its window was committed. */
  ghost predicate LabelsOk(w: World) {
    && (forall k :: k in w.opening ==> w.opening[k] in w.labels)
    && (forall k :: k in w.main.owners ==> w.main.owners[k] in w.labels)
    && (forall k, l :: k in w.opening && l in w.opening && w.opening[k] == w.opening[l] ==> k == l)
    && (forall k, l :: k in w.main.owners && l in w.main.owners && w.main.owners[k] == w.main.owners[l] ==> k == l)
    && (forall k, l :: k in w.opening && l in w.main.owners ==> w.opening[k] != w.main.owners[l])
  }

  ghost predicate SenderOk(w: World, id: string, sender: Sender) {
    && sender.request.id == id != ""
    && sender.request.source in w.labels
    && sender.request.expiresAt == sender.started + LIFETIME
    && sender.started <= w.now && sender.attempts <= ATTEMPTS
    && (sender.attempts > 0 ==> sender.started + INTERVAL * (sender.attempts - 1) <= w.now)
    && (sender.phase == OutOfAttempts ==> sender.started + INTERVAL * ATTEMPTS <= w.now)
    && (sender.phase.Answered? ==> exists n :: AckRecord(id, sender.phase.accepted, n) in w.acks)
  }

  ghost predicate SendersOk(w: World) {
    && (forall id :: id in w.senders ==> SenderOk(w, id, w.senders[id]))
    && (forall id :: id in w.main.waiting ==> id in w.senders)
    && (forall i :: 0 <= i < |w.log| ==> w.log[i].0 in w.senders)
  }

  function LastDecisions(log: seq<(string, bool)>): seq<(string, bool)> {
    if |log| <= REMEMBERED then log else log[|log| - REMEMBERED..]
  }

  /** The memory holds the last hundred decisions, no identifier is decided again within a hundred decisions,
      and a request that waits for its hit test is not among them. */
  ghost predicate CacheOk(w: World) {
    && w.main.decisions == LastDecisions(w.log)
    && (forall i, j :: 0 <= i < j < |w.log| && w.log[i].0 == w.log[j].0 ==> j - i > REMEMBERED)
    && (forall id, i :: id in w.main.waiting && 0 <= i < |w.log| && w.log[i].0 == id ==> |w.log| - i > REMEMBERED)
  }

  ghost predicate Spent(w: World, name: string) {
    && name in w.labels
    && (forall k :: k in w.opening ==> w.opening[k] != name)
    && (forall k :: k in w.main.owners ==> w.main.owners[k] != name)
  }

  /** The window of an accepted request owns nothing any more, and no request is accepted twice. */
  ghost predicate AcceptedOk(w: World) {
    && (forall i :: 0 <= i < |w.log| && w.log[i].1 ==>
          w.log[i].0 in w.senders && Spent(w, w.senders[w.log[i].0].request.source))
    && (forall i, j :: 0 <= i < j < |w.log| && w.log[i].0 == w.log[j].0 ==> !(w.log[i].1 && w.log[j].1))
  }

  /** Every acknowledgement repeats one of the last hundred decisions before it was sent. */
  ghost predicate AcksOk(w: World) {
    forall a :: a in w.acks ==>
      exists p :: 0 <= p < a.at <= |w.log| && a.at - p <= REMEMBERED && w.log[p] == (a.id, a.accepted)
  }

  ghost predicate Inv(w: World) {
    LayoutOk(w) && LabelsOk(w) && SendersOk(w) && CacheOk(w) && AcceptedOk(w) && AcksOk(w)
  }

  /** The steps at which the main window's handler runs. */
  predicate Handles(step: Step) {
    step.Arrive? || step.Resume?
  }

  // ----- What the handler can do -----

  lemma Remembered(log: seq<(string, bool)>, id: string)
    ensures Decision(LastDecisions(log), id).None? ==>
              forall i :: 0 <= i < |log| && log[i].0 == id ==> |log| - i > REMEMBERED
    ensures var known := Decision(LastDecisions(log), id);
            known.Some? ==> exists p :: 0 <= p < |log| && |log| - p <= REMEMBERED && log[p] == (id, known.value)
  {
    hide Decision;
    var last := LastDecisions(log);
    var known := Decision(last, id);
    var start := |log| - |last|;
    forall i | start <= i < |log| ensures log[i] in last {
      assert last[i - start] == log[i];
    }
    if known.Some? {
      var k :| 0 <= k < |last| && last[k] == (id, known.value);
      assert log[start + k] == (id, known.value);
    }
  }

  /** A cached answer or none; nothing else changes. */
  ghost predicate Quiet(w: World, w2: World, id: string) {
    w2 == w
    || exists a :: Decision(w.main.decisions, id) == Some(a) && w2 == w.(acks := w.acks + {AckRecord(id, a, |w.log|)})
  }

  ghost predicate Waits(w: World, w2: World, id: string) {
    Decision(w.main.decisions, id).None? && w2 == w.(main := w.main.(waiting := w.main.waiting + {id}))
  }

  /** A new decision: a refusal changes only the memory, an acceptance also takes the pane over. */
  ghost predicate Decides(w: World, w2: World, id: string, a: bool)
    requires id in w.senders
  {
    var request := w.senders[id].request;
    var key := DetachTargetKey(request.target);
    && Decision(w.main.decisions, id).None?
    && w2 == w.(main := w2.main, log := w.log + [(id, a)], acks := w.acks + {AckRecord(id, a, |w.log| + 1)})
    && w2.main.waiting == w.main.waiting - {id}
    && w2.main.decisions == Remember(w.main.decisions, id, a)
    && LayoutOk(w2)
    && (!a ==> w2.main.owners == w.main.owners && w2.main.tree == w.main.tree)
    && (a ==> w.now < request.expiresAt && Owns(w.main, request))
    && (a ==> w2.main.owners == w.main.owners - {key} && key in GetLeaves(w2.main.tree))
  }

  lemma DecidesWith(w: World, w2: World, id: string, hit: Hit, hydrates: bool)
    requires LayoutOk(w) && id in w.senders && w.senders[id].request.id == id
    requires Decision(w.main.decisions, id).None?
    requires w2 == Handled(w, id, true, Conclude(Settle(w.main, w.senders[id].request, hit, hydrates, w.now), id))
    ensures exists a :: Decides(w, w2, id, a)
  {
    hide Settle, Remember, DetachTargetKey, GetLeaves, Decision;
    var request := w.senders[id].request;
    SettleMeaning(w.main, request, hit, hydrates, w.now);
    var (a, next) := Settle(w.main, request, hit, hydrates, w.now);
    assert Decides(w, w2, id, a);
  }

  lemma DecidesNot(w: World, w2: World, id: string)
    requires LayoutOk(w) && id in w.senders && w.senders[id].request.id == id
    requires Decision(w.main.decisions, id).None?
    requires w2 == Handled(w, id, true, Conclude((false, w.main), id))
    ensures Decides(w, w2, id, false)
  {
    hide Remember, DetachTargetKey, GetLeaves, Decision;
  }

  lemma HandlerCases(w: World, step: Step)
    requires LayoutOk(w) && SendersOk(w) && CacheOk(w)
    requires Handles(step) && Enabled(w, step)
    ensures var w2 := Apply(w, step);
            Quiet(w, w2, step.id) || Waits(w, w2, step.id) || exists a :: Decides(w, w2, step.id, a)
  {
    hide Settle, Conclude, Decides, Decision, Owns, LastDecisions, LayoutOk;
    var w2, id := Apply(w, step), step.id;
    var request := w.senders[id].request;
    match step
    case Arrive(_, hydrates) =>
      var known := Decision(w.main.decisions, id);
      if known.Some? {
        assert Quiet(w, w2, id);
      } else if id !in w.main.waiting {
        if !Owns(w.main, request) {
          DecidesNot(w, w2, id);
        } else if !request.pointed {
          DecidesWith(w, w2, id, Hit.Hit(true, None), hydrates);
        }
      }
    case Resume(_, hit, hydrates) =>
      WaitingIsNew(w, id);
      DecidesWith(w, w2, id, hit, hydrates);
  }

  lemma WaitingIsNew(w: World, id: string)
    requires CacheOk(w) && id in w.main.waiting
    ensures Decision(w.main.decisions, id).None?
  {
    hide Decision, LastDecisions;
    Remembered(w.log, id);
  }

  /** Nobody gains the pane, and who loses it had its request for it accepted. */
  ghost predicate Relieved(w: World, w2: World, id: string, key: string) {
    && (key in w2.main.owners ==> key in w.main.owners && w2.main.owners[key] == w.main.owners[key])
    && (key in w.main.owners && key !in w2.main.owners ==>
          id in w.senders && key == DetachTargetKey(w.senders[id].request.target) && w2.log == w.log + [(id, true)])
  }

  /** Who owns which pane after a step: a window gains one only by committing to it, with the name it was opened
      under, and loses one only by releasing it or when the main window takes it back. */
  lemma OwnersAfter(w: World, step: Step, key: string)
    requires LayoutOk(w) && SendersOk(w) && CacheOk(w) && Enabled(w, step)
    ensures var owners, owners2 := w.main.owners, Apply(w, step).main.owners;
            match step
            case Commit(k) =>
              if key == k then key in owners2 && owners2[key] == w.opening[k]
              else (key in owners2 <==> key in owners) && (key in owners ==> owners2[key] == owners[key])
            case Release(k) =>
              (key in owners2 <==> key in owners && key != k) && (key in owners2 ==> owners2[key] == owners[key])
            case Arrive(id, _) => Relieved(w, Apply(w, step), id, key)
            case Resume(id, _, _) => Relieved(w, Apply(w, step), id, key)
            case _ => (key in owners2 <==> key in owners) && (key in owners ==> owners2[key] == owners[key])
  {
    hide Decision, OnDrop, OnHit, LayoutOk, SendersOk, CacheOk, DetachTargetKey, GetLeaves, Remember, Owns, ApplyOp;
    if Handles(step) {
      HandlerCases(w, step);
    }
  }

  // ----- Each part of the invariant is kept -----

  lemma LayoutKept(w: World, step: Step)
    requires Inv(w) && Enabled(w, step)
    ensures LayoutOk(Apply(w, step))
  {
    hide GetLeaves, CountLeaves, Decision, OnDrop, OnHit, DetachTargetKey, LabelsOk, AcceptedOk, AcksOk;
    if Handles(step) {
      HandlerCases(w, step);
    } else if step.Edit? {
      OpKeepsLayout(w.main.tree, step.op);
    }
  }

  lemma RememberedLast(log: seq<(string, bool)>, id: string, accepted: bool)
    requires Decision(LastDecisions(log), id).None?
    ensures Remember(LastDecisions(log), id, accepted) == LastDecisions(log + [(id, accepted)])
  {
    hide Decision, SetDecision;
    SetNewDecision(LastDecisions(log), id, accepted);
  }

  lemma CacheAfter(w: World, w2: World, id: string, a: bool)
    requires CacheOk(w) && id in w.senders && Decides(w, w2, id, a)
    ensures CacheOk(w2)
  {
    hide Decision, LastDecisions, Remember, DetachTargetKey, GetLeaves, LayoutOk, Owns;
    Remembered(w.log, id);
    RememberedLast(w.log, id, a);
  }

  lemma CacheKept(w: World, step: Step)
    requires LayoutOk(w) && SendersOk(w) && CacheOk(w) && Enabled(w, step)
    ensures CacheOk(Apply(w, step))
  {
    hide Decision, OnDrop, OnHit, LayoutOk, SendersOk, Decides, LastDecisions;
    if Handles(step) {
      HandlerCases(w, step);
      var w2 := Apply(w, step);
      if a :| Decides(w, w2, step.id, a) {
        CacheAfter(w, w2, step.id, a);
      } else if Waits(w, w2, step.id) {
        Remembered(w.log, step.id);
      }
    }
  }

  /** The handler gives no pane to a window. */
  lemma HandlerOwners(w: World, step: Step)
    requires LayoutOk(w) && SendersOk(w) && CacheOk(w) && Handles(step) && Enabled(w, step)
    ensures var w2 := Apply(w, step);
            w2.opening == w.opening && w2.labels == w.labels
            && forall k :: k in w2.main.owners ==> k in w.main.owners && w2.main.owners[k] == w.main.owners[k]
  {
    hide Decision, OnDrop, OnHit, LayoutOk, SendersOk, CacheOk, DetachTargetKey, GetLeaves, Remember, Owns;
    HandlerCases(w, step);
  }

  lemma FewerOwners(w: World, w2: World)
    requires LabelsOk(w) && w2.opening == w.opening && w2.labels == w.labels
    requires forall k :: k in w2.main.owners ==> k in w.main.owners && w2.main.owners[k] == w.main.owners[k]
    ensures LabelsOk(w2)
  {
  }

  lemma LabelsKept(w: World, step: Step)
    requires LayoutOk(w) && SendersOk(w) && CacheOk(w) && LabelsOk(w) && Enabled(w, step)
    ensures LabelsOk(Apply(w, step))
  {
    if Handles(step) {
      hide LabelsOk, LayoutOk, SendersOk, CacheOk, Apply, Enabled;
      HandlerOwners(w, step);
      FewerOwners(w, Apply(w, step));
    } else {
      hide OnDrop, OnHit, LayoutOk, SendersOk, CacheOk, ApplyOp, Decision;
    }
  }

  lemma SendersAfter(w: World, w2: World, id: string, a: bool)
    requires SendersOk(w) && id in w.senders && Decides(w, w2, id, a)
    ensures SendersOk(w2)
  {
    hide Decision, Remember, DetachTargetKey, GetLeaves, LayoutOk, Owns;
    forall i | i in w2.senders ensures SenderOk(w2, i, w2.senders[i]) {
      assert SenderOk(w, i, w.senders[i]);
    }
  }

  lemma SendersKept(w: World, step: Step)
    requires LayoutOk(w) && SendersOk(w) && CacheOk(w) && Enabled(w, step)
    ensures SendersOk(Apply(w, step))
  {
    hide Decision, OnDrop, OnHit, LayoutOk, CacheOk, Decides, ApplyOp;
    var w2 := Apply(w, step);
    if Handles(step) {
      HandlerCases(w, step);
      if a :| Decides(w, w2, step.id, a) {
        SendersAfter(w, w2, step.id, a);
      }
    }
  }

  lemma AcceptedAfter(w: World, w2: World, id: string, a: bool)
    requires LabelsOk(w) && SendersOk(w) && AcceptedOk(w) && id in w.senders && Decides(w, w2, id, a)
    ensures AcceptedOk(w2)
  {
    hide Decision, Remember, DetachTargetKey, GetLeaves, LayoutOk;
    var source := w.senders[id].request.source;
    assert a ==> Spent(w2, source);
    assert a ==> !Spent(w, source);
    forall i | 0 <= i < |w2.log| && w2.log[i].1 ensures Spent(w2, w2.senders[w2.log[i].0].request.source) {
      assert i < |w.log| ==> Spent(w, w.senders[w.log[i].0].request.source);
    }
  }

  lemma SpentStays(w: World, step: Step, name: string)
    requires !Handles(step) && Enabled(w, step) && Spent(w, name)
    ensures Spent(Apply(w, step), name)
  {
    hide OnDrop, OnHit, ApplyOp, Decision;
  }

  lemma AcceptedOther(w: World, step: Step)
    requires AcceptedOk(w) && !Handles(step) && Enabled(w, step)
    ensures AcceptedOk(Apply(w, step))
  {
    hide OnDrop, OnHit, ApplyOp, Decision, Spent;
    var w2 := Apply(w, step);
    assert w2.log == w.log;
    forall i | 0 <= i < |w.log| && w.log[i].1
      ensures w.log[i].0 in w2.senders && Spent(w2, w2.senders[w.log[i].0].request.source)
    {
      var name := w.senders[w.log[i].0].request.source;
      SpentStays(w, step, name);
      SameSource(w, step, w.log[i].0);
    }
  }

  lemma SameSource(w: World, step: Step, id: string)
    requires !Handles(step) && Enabled(w, step) && id in w.senders
    ensures id in Apply(w, step).senders && Apply(w, step).senders[id].request == w.senders[id].request
  {
    hide OnDrop, OnHit, ApplyOp, Decision;
  }

  lemma AcceptedKept(w: World, step: Step)
    requires LayoutOk(w) && SendersOk(w) && CacheOk(w) && LabelsOk(w) && AcceptedOk(w) && Enabled(w, step)
    ensures AcceptedOk(Apply(w, step))
  {
    hide Decision, OnDrop, OnHit, LayoutOk, CacheOk, Decides, SendersOk, ApplyOp;
    var w2 := Apply(w, step);
    if Handles(step) {
      HandlerCases(w, step);
      if a :| Decides(w, w2, step.id, a) {
        AcceptedAfter(w, w2, step.id, a);
      }
    } else {
      AcceptedOther(w, step);
    }
  }

  lemma AcksAfter(w: World, w2: World, id: string, a: bool)
    requires AcksOk(w) && id in w.senders && Decides(w, w2, id, a)
    ensures AcksOk(w2)
  {
    hide Decision, Remember, DetachTargetKey, GetLeaves, LayoutOk, Owns;
    forall k | k in w2.acks
      ensures exists p :: 0 <= p < k.at <= |w2.log| && k.at - p <= REMEMBERED && w2.log[p] == (k.id, k.accepted)
    {
      if k in w.acks {
        var p :| 0 <= p < k.at <= |w.log| && k.at - p <= REMEMBERED && w.log[p] == (k.id, k.accepted);
        assert w2.log[p] == (k.id, k.accepted);
      } else {
        assert w2.log[|w.log|] == (k.id, k.accepted);
      }
    }
  }

  lemma AcksKept(w: World, step: Step)
    requires LayoutOk(w) && SendersOk(w) && CacheOk(w) && AcksOk(w) && Enabled(w, step)
    ensures AcksOk(Apply(w, step))
  {
    hide Decision, OnDrop, OnHit, LayoutOk, Decides, SendersOk, ApplyOp, LastDecisions;
    var w2 := Apply(w, step);
    if Handles(step) {
      HandlerCases(w, step);
      if a :| Decides(w, w2, step.id, a) {
        AcksAfter(w, w2, step.id, a);
      } else {
        Remembered(w.log, step.id);
      }
    }
  }

  lemma StepKeeps(w: World, step: Step)
    requires Inv(w) && Enabled(w, step)
    ensures Inv(Apply(w, step))
  {
    LayoutKept(w, step);
    LabelsKept(w, step);
    SendersKept(w, step);
    CacheKept(w, step);
    AcceptedKept(w, step);
    AcksKept(w, step);
  }

  lemma {:induction false} RunKeeps(ws: seq<World>, steps: seq<Step>, i: nat)
    requires Run(ws, steps) && i < |ws|
    ensures Inv(ws[i])
  {
    hide Inv, Apply, Enabled;
    if i == 0 {
      InitOk(ws[0]);
    } else {
      RunKeeps(ws, steps, i - 1);
      StepKeeps(ws[i - 1], steps[i - 1]);
    }
  }

  lemma InitOk(w: World)
    requires Init(w)
    ensures Inv(w)
  {
  }

  /** The handler object does, at the steps at which it runs, what the run says of the main window. */
  method Handle(receiver: DropReceiver, w: World, step: Step)
    requires Inv(w) && Handles(step) && Enabled(w, step) && receiver.State() == w.main
    modifies receiver
    ensures receiver.Valid() && receiver.State() == Apply(w, step).main
  {
    hide Decision, OnDrop, OnHit, LayoutOk, SendersOk, CacheOk, LabelsOk, AcceptedOk, AcksOk, Outcome, Acceptable, Owns, Sound;
    InvIsSound(w);
    match step {
      case Arrive(id, hydrates) =>
        var reply := receiver.Drop(w.senders[id].request, hydrates, w.now);
      case Resume(id, hit, hydrates) =>
        NamedByItsRequest(w, id);
        WaitingIsNew(w, id);
        var accepted := receiver.Resume(w.senders[id].request, hit, hydrates, w.now);
    }
  }

  lemma NamedByItsRequest(w: World, id: string)
    requires SendersOk(w) && id in w.senders
    ensures w.senders[id].request.id == id
  {
  }

  lemma InvIsSound(w: World)
    requires LayoutOk(w) && CacheOk(w)
    ensures Sound(w.main)
  {
    hide GetLeaves, CountLeaves, Distinct, LastDecisions;
    var last := LastDecisions(w.log);
    LastLength(w.log);
    forall i, j | 0 <= i < j < |last| ensures last[i].0 != last[j].0 {
      LastAt(w.log, i);
      LastAt(w.log, j);
    }
    forall i | 0 <= i < |last| ensures last[i].0 !in w.main.waiting {
      LastAt(w.log, i);
    }
  }

  lemma LastLength(log: seq<(string, bool)>)
    ensures |LastDecisions(log)| == if |log| <= REMEMBERED then |log| else REMEMBERED
  {
  }

  lemma LastAt(log: seq<(string, bool)>, i: nat)
    requires i < |LastDecisions(log)| <= |log|
    ensures LastDecisions(log)[i] == log[|log| - |LastDecisions(log)| + i]
  {
  }

  // ----- Over whole runs -----

  /** The step from `w` to `w2` decides the request and accepts it. */
  ghost predicate Accepts(w: World, w2: World, id: string) {
    w2.log == w.log + [(id, true)]
  }

  lemma StepLog(w: World, step: Step)
    requires LayoutOk(w) && SendersOk(w) && CacheOk(w) && Enabled(w, step)
    ensures var w2 := Apply(w, step);
            && w.log <= w2.log
            && (forall id :: Accepts(w, w2, id) ==> Handles(step) && step.id == id && id in w.senders && Decides(w, w2, id, true))
  {
    hide Decision, OnDrop, OnHit, LayoutOk, SendersOk, CacheOk, Remember, DetachTargetKey, GetLeaves, Owns, ApplyOp;
    if Handles(step) {
      HandlerCases(w, step);
      var w2 := Apply(w, step);
      forall id | Accepts(w, w2, id) ensures step.id == id && Decides(w, w2, id, true) {
        assert w2.log[|w.log|] == (id, true);
      }
    }
  }

  lemma {:induction false} LogGrows(ws: seq<World>, steps: seq<Step>, i: nat, j: nat)
    requires Run(ws, steps) && i <= j < |ws|
    ensures ws[i].log <= ws[j].log
  {
    hide Apply, Enabled, LayoutOk, SendersOk, CacheOk, AcceptedOk, AcksOk, LabelsOk;
    if i < j {
      LogGrows(ws, steps, i, j - 1);
      RunKeeps(ws, steps, j - 1);
      StepLog(ws[j - 1], steps[j - 1]);
    }
  }

  /** In no run is a request accepted twice, however often and late it is delivered and however many decisions
      come between. */
  lemma AcceptedAtMostOnce(ws: seq<World>, steps: seq<Step>, i: nat, j: nat, id: string)
    requires Run(ws, steps) && i < j < |steps|
    requires Accepts(ws[i], ws[i + 1], id)
    ensures !Accepts(ws[j], ws[j + 1], id)
  {
    hide Apply, Enabled, LayoutOk, SendersOk, CacheOk, AcksOk, LabelsOk, AcceptedOk;
    LogGrows(ws, steps, i + 1, j);
    RunKeeps(ws, steps, j + 1);
    LogGrows(ws, steps, j, j + 1);
    var p := |ws[i].log|;
    assert ws[i + 1].log[p] == (id, true);
    assert ws[j].log[p] == (id, true);
    assert ws[j + 1].log[p] == (id, true);
    if Accepts(ws[j], ws[j + 1], id) {
      OneAcceptance(ws[j + 1], p, |ws[j].log|, id);
    }
  }

  lemma OneAcceptance(w: World, p: nat, q: nat, id: string)
    requires AcceptedOk(w) && p < |w.log| && q < |w.log|
    requires w.log[p] == (id, true) && w.log[q] == (id, true)
    ensures p == q
  {
  }

  /** A request is accepted before it expires and while its window owns the pane; then no window owns that pane,
      the main window shows it, and the window that asked never owns a pane again. */
  lemma AcceptanceIsSafe(ws: seq<World>, steps: seq<Step>, i: nat, j: nat, id: string)
    requires Run(ws, steps) && i < j < |ws|
    requires Accepts(ws[i], ws[i + 1], id)
    ensures id in ws[i].senders && id in ws[j].senders
    ensures var request := ws[i].senders[id].request;
            var key := DetachTargetKey(request.target);
            && ws[i].now < request.expiresAt
            && Owns(ws[i].main, request)
            && key !in ws[i + 1].main.owners
            && key in GetLeaves(ws[i + 1].main.tree)
            && (forall k :: k in ws[j].main.owners ==> ws[j].main.owners[k] != request.source)
  {
    hide Apply, Enabled, LayoutOk, SenderOk, CacheOk, AcksOk, LabelsOk, DetachTargetKey, Owns, GetLeaves, Remember, Decision;
    RunKeeps(ws, steps, i);
    StepLog(ws[i], steps[i]);
    LogGrows(ws, steps, i + 1, j);
    RunKeeps(ws, steps, j);
    var p := |ws[i].log|;
    assert ws[i + 1].log[p] == (id, true);
    assert ws[j].log[p] == (id, true);
    SenderStays(ws, steps, i, j, id);
  }

  lemma {:induction false} SenderStays(ws: seq<World>, steps: seq<Step>, i: nat, j: nat, id: string)
    requires Run(ws, steps) && i <= j < |ws| && id in ws[i].senders
    ensures id in ws[j].senders
    ensures ws[j].senders[id].request == ws[i].senders[id].request && ws[j].senders[id].started == ws[i].senders[id].started
    ensures ws[i].senders[id].phase == OutOfAttempts ==> ws[j].senders[id].phase == OutOfAttempts
  {
    hide Apply, Enabled;
    if i < j {
      SenderStays(ws, steps, i, j - 1, id);
      SenderStep(ws[j - 1], steps[j - 1], id);
    }
  }

  lemma SenderStep(w: World, step: Step, id: string)
    requires Enabled(w, step) && id in w.senders
    ensures var w2 := Apply(w, step);
            && id in w2.senders
            && w2.senders[id].request == w.senders[id].request && w2.senders[id].started == w.senders[id].started
            && (w.senders[id].phase == OutOfAttempts ==> w2.senders[id].phase == OutOfAttempts)
  {
    hide OnDrop, OnHit, Decision, ApplyOp;
  }

  /** A window that gave up after its attempts is never relieved of its pane afterwards: by then at least
      8000 ms have gone by, and the request lived for 7000 ms. */
  lemma GivenUpIsNeverAccepted(ws: seq<World>, steps: seq<Step>, i: nat, j: nat, id: string)
    requires Run(ws, steps) && i <= j < |steps|
    requires id in ws[i].senders && ws[i].senders[id].phase == OutOfAttempts
    ensures !Accepts(ws[j], ws[j + 1], id)
  {
    hide Apply, Enabled, LayoutOk, CacheOk, AcksOk, LabelsOk, DetachTargetKey, Owns, GetLeaves, Remember, Decision, AcceptedOk;
    SenderStays(ws, steps, i, j, id);
    RunKeeps(ws, steps, j);
    assert SenderOk(ws[j], id, ws[j].senders[id]);
    StepLog(ws[j], steps[j]);
  }

  /** A request is sent at most four times, the first time at once and every other one at least two seconds after
      the one before it was due. */
  lemma AttemptsAreSpaced(ws: seq<World>, steps: seq<Step>, i: nat, id: string)
    requires Run(ws, steps) && i < |ws| && id in ws[i].senders
    ensures ws[i].senders[id].attempts <= 4
    ensures ws[i].senders[id].attempts > 0 ==>
              ws[i].senders[id].started + 2000 * (ws[i].senders[id].attempts - 1) <= ws[i].now
  {
    hide Run, LayoutOk, CacheOk, AcceptedOk, AcksOk, LabelsOk;
    RunKeeps(ws, steps, i);
    assert SenderOk(ws[i], id, ws[i].senders[id]);
  }

  /** Every acknowledgement sent until a hundred later decisions pushed this one out says the same, and an
      identifier is decided again only after that. */
  lemma AcknowledgementsAgree(ws: seq<World>, steps: seq<Step>, i: nat, p: nat)
    requires Run(ws, steps) && i < |ws| && p < |ws[i].log|
    ensures forall a :: a in ws[i].acks && a.id == ws[i].log[p].0 && p < a.at <= p + REMEMBERED ==>
                          a.accepted == ws[i].log[p].1
    ensures forall q :: p < q < |ws[i].log| && ws[i].log[q].0 == ws[i].log[p].0 ==> q - p > REMEMBERED
  {
    hide Run, LayoutOk, SendersOk, AcceptedOk, LabelsOk;
    RunKeeps(ws, steps, i);
    var w := ws[i];
    forall a | a in w.acks && a.id == w.log[p].0 && p < a.at <= p + REMEMBERED ensures a.accepted == w.log[p].1 {
      var q :| 0 <= q < a.at <= |w.log| && a.at - q <= REMEMBERED && w.log[q] == (a.id, a.accepted);
      assert q == p;
    }
  }

  /** The answer a window hears is a decision the main window made about its request. */
  lemma AnswerIsADecision(ws: seq<World>, steps: seq<Step>, i: nat, id: string)
    requires Run(ws, steps) && i < |ws| && id in ws[i].senders && ws[i].senders[id].phase.Answered?
    ensures (id, ws[i].senders[id].phase.accepted) in ws[i].log
  {
    hide Run, LayoutOk, CacheOk, AcceptedOk, LabelsOk;
    RunKeeps(ws, steps, i);
    assert SenderOk(ws[i], id, ws[i].senders[id]);
    var n :| AckRecord(id, ws[i].senders[id].phase.accepted, n) in ws[i].acks;
    var a := AckRecord(id, ws[i].senders[id].phase.accepted, n);
    var p :| 0 <= p < a.at <= |ws[i].log| && a.at - p <= REMEMBERED && ws[i].log[p] == (a.id, a.accepted);
  }

  /** In every run the panes stay distinct and at most nine, and no window owns two panes. */
  lemma WorkspaceStaysSound(ws: seq<World>, steps: seq<Step>, i: nat)
    requires Run(ws, steps) && i < |ws|
    ensures Distinct(GetLeaves(ws[i].main.tree)) && CountLeaves(ws[i].main.tree) <= MAX_TERMINAL_PANES
    ensures forall k, l :: k in ws[i].main.owners && l in ws[i].main.owners && ws[i].main.owners[k] == ws[i].main.owners[l]
                           ==> k == l
    ensures |ws[i].main.decisions| <= REMEMBERED
  {
    hide Run, SendersOk, AcceptedOk, AcksOk;
    RunKeeps(ws, steps, i);
  }

  // ----- A request that is accepted -----

  /** A window is opened for a pane, asks the main window to take it back, and is told that it did. */
  function Returning(request: Request, i: nat): World {
    var key := DetachTargetKey(request.target);
    var sender := Sender(request, 0, 0, Pending);
    var start := World(0, Main([], {}, map[], None, None), map[], {}, map[], {}, {}, []);
    var begun := start.(opening := map[key := request.source], labels := {request.source});
    var owned := begun.(opening := map[], main := start.main.(owners := map[key := request.source]));
    var asked := owned.(senders := map[request.id := sender]);
    var sent := asked.(senders := map[request.id := sender.(attempts := 1)], sent := {request.id});
    var accepted := sent.(
      main := Main([(request.id, true)], {}, map[], Some(Leaf(key)), Some(key)),
      log := [(request.id, true)], acks := {AckRecord(request.id, true, 1)});
    match i
    case 0 => start
    case 1 => begun
    case 2 => owned
    case 3 => asked
    case 4 => sent
    case 5 => accepted
    case _ => accepted.(senders := map[request.id := sender.(attempts := 1, phase := Answered(true))])
  }

  function ReturnStep(request: Request, i: nat): Step {
    var key := DetachTargetKey(request.target);
    match i
    case 0 => OpenWindow(key, request.source)
    case 1 => Commit(key)
    case 2 => Ask(request)
    case 3 => Send(request.id)
    case 4 => Arrive(request.id, true)
    case _ => Hear(request.id, true)
  }

  lemma ReturnAccepted(request: Request)
    requires request.id != "" && !request.pointed && request.expiresAt == LIFETIME
    ensures Enabled(Returning(request, 4), ReturnStep(request, 4))
    ensures Apply(Returning(request, 4), ReturnStep(request, 4)) == Returning(request, 5)
  {
    hide DetachTargetKey;
    var key := DetachTargetKey(request.target);
    assert map[key := request.source] - {key} == map[];
    assert {request.id} - {request.id} == {};
  }

  lemma ReturnStepTaken(request: Request, i: nat)
    requires request.id != "" && !request.pointed && request.expiresAt == LIFETIME && i < 6
    ensures Enabled(Returning(request, i), ReturnStep(request, i))
    ensures Apply(Returning(request, i), ReturnStep(request, i)) == Returning(request, i + 1)
  {
    hide DetachTargetKey, OnDrop, OnHit, Decision;
    if i == 4 {
      ReturnAccepted(request);
    } else if i == 1 {
      var key := DetachTargetKey(request.target);
      assert map[key := request.source] - {key} == map[];
    } else if i == 5 {
      assert AckRecord(request.id, true, 1) in Returning(request, 5).acks;
    }
  }

  /** Any request can be accepted: there is a run in which it is, and its window hears so. */
  lemma RequestCanBeAccepted(request: Request)
    requires request.id != "" && !request.pointed && request.expiresAt == LIFETIME
    ensures exists ws: seq<World>, steps: seq<Step> ::
              && Run(ws, steps) && |ws| == 7 && Accepts(ws[4], ws[5], request.id)
              && request.id in ws[6].senders && ws[6].senders[request.id].phase == Answered(true)
              && DetachTargetKey(request.target) in GetLeaves(ws[6].main.tree) && ws[6].main.owners == map[]
  {
    hide Enabled, Apply, DetachTargetKey;
    var ws := seq(7, i requires 0 <= i < 7 => Returning(request, i));
    var steps := seq(6, i requires 0 <= i < 6 => ReturnStep(request, i));
    forall i | 0 <= i < 6 ensures Enabled(ws[i], steps[i]) && ws[i + 1] == Apply(ws[i], steps[i]) {
      ReturnStepTaken(request, i);
    }
    assert Run(ws, steps);
  }
}
