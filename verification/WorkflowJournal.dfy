/**
 Folding a workflow journal into the step views: each event changes, in place, the view that its
 key leads to.
 */
module WorkflowJournal {
  import opened Text
  import opened Wrappers
  import opened WorkflowSteps

  datatype ProgressEvent = ProgressEvent(
    timestamp: Timestamp,
    event: string,
    stepKey: Option<string>,
    kind: Option<string>,
    message: Option<string>,
    output: Option<string>,
    childSessionId: Option<string>)

  datatype EventKind = StepStarted | AgentStarted | PhaseStarted | ParallelStarted
                     | StepCompleted | StepFailed | StepCancelled | Ignored

  function KindOf(e: ProgressEvent): EventKind {
    if e.event == "step_started" then StepStarted
    else if e.event == "agent_started" then AgentStarted
    else if e.event == "phase_started" then PhaseStarted
    else if e.event == "parallel_started" then ParallelStarted
    else if e.event == "step_completed" then StepCompleted
    else if e.event == "step_failed" then StepFailed
    else if e.event == "step_cancelled" then StepCancelled
    else Ignored
  }

  predicate IsStart(e: ProgressEvent) {
    var k := KindOf(e);
    k.StepStarted? || k.AgentStarted? || k.PhaseStarted? || k.ParallelStarted?
  }

  predicate IsEnd(e: ProgressEvent) {
    var k := KindOf(e);
    k.StepCompleted? || k.StepFailed? || k.StepCancelled?
  }

  predicate IsTerminal(status: StepStatus) {
    status.Completed? || status.Failed? || status.Cancelled?
  }

  predicate Says(text: Option<string>) {
    text.Some? && !IsBlank(text.value)
  }

  function SetStartedAt(view: StepView, timestamp: Timestamp): StepView {
    if view.startedAt.None? then view.(startedAt := Some(timestamp)) else view
  }

  /** One event applied to the view it belongs to. */
  function Apply(view: StepView, e: ProgressEvent): StepView {
    match KindOf(e)
    case StepCompleted =>
      view.(status := Completed, finishedAt := Some(e.timestamp), output := e.output)
    case StepFailed =>
      view.(status := Failed, finishedAt := Some(e.timestamp), error := if e.message.Some? then e.message else e.output)
    case StepCancelled =>
      view.(status := Cancelled, finishedAt := Some(e.timestamp), error := if e.message.Some? then e.message else e.output)
    case Ignored => view
    case kind =>
      var v := SetStartedAt(if IsTerminal(view.status) then view else view.(status := Running), e.timestamp);
      v.(kind := if Says(e.kind) then e.kind.value else v.kind,
         caption := if Says(e.message) then e.message.value else v.caption,
         childSessionId := if kind.AgentStarted? && Says(e.childSessionId) then e.childSessionId else v.childSessionId)
  }

  /** The index that the key table holds for a key: the last view that carries it. */
  function IndexOf(views: seq<StepView>, key: string): (r: Option<nat>)
    ensures r.Some? ==> r.value < |views| && views[r.value].stepKey == key
                        && forall j :: r.value < j < |views| ==> views[j].stepKey != key
    ensures r.None? ==> forall j :: 0 <= j < |views| ==> views[j].stepKey != key
  {
    if views == [] then None
    else if views[|views| - 1].stepKey == key then Some(|views| - 1)
    else IndexOf(views[..|views| - 1], key)
  }

  function Step(views: seq<StepView>, e: ProgressEvent): (r: seq<StepView>)
    ensures |r| == |views| && forall k :: 0 <= k < |views| ==> r[k].stepKey == views[k].stepKey
  {
    if e.stepKey.None? || IndexOf(views, e.stepKey.value).None? then views
    else
      var index := IndexOf(views, e.stepKey.value).value;
      views[index := Apply(views[index], e)]
  }

  function Merged(views: seq<StepView>, events: seq<ProgressEvent>): (r: seq<StepView>)
    ensures |r| == |views| && forall k :: 0 <= k < |views| ==> r[k].stepKey == views[k].stepKey
  {
    if events == [] then views else Step(Merged(views, events[..|events| - 1]), events[|events| - 1])
  }

  /** The table agrees with a search from the end for every key. */
  ghost predicate TableFor(byKey: map<string, nat>, views: seq<StepView>) {
    forall key :: (if key in byKey then Some(byKey[key]) else None) == IndexOf(views, key)
  }

  method KeyTable(views: array<StepView>) returns (byKey: map<string, nat>)
    ensures TableFor(byKey, views[..])
  {
    byKey := map[];
    for index := 0 to views.Length
      invariant TableFor(byKey, views[..index])
    {
      assert views[..index + 1][..index] == views[..index];
      byKey := byKey[views[index].stepKey := index];
    }
    assert views[..views.Length] == views[..];
  }

  method MergeWorkflowStepEvents(views: array<StepView>, events: seq<ProgressEvent>)
    modifies views
    ensures views[..] == Merged(old(views[..]), events)
  {
    hide Apply, IndexOf;
    var byKey := KeyTable(views);
    for i := 0 to |events|
      invariant views[..] == Merged(old(views[..]), events[..i])
      invariant TableFor(byKey, views[..])
    {
      assert events[..i + 1][..i] == events[..i];
      var e := events[i];
      if e.stepKey.None? || e.stepKey.value !in byKey {
        continue;
      }
      var index := byKey[e.stepKey.value];
      ghost var before := views[..];
      assert IndexOf(before, e.stepKey.value) == Some(index);
      ApplyKeepsKey(views[index], e);
      views[index] := Apply(views[index], e);
      assert views[..] == before[index := Apply(before[index], e)];
      forall key ensures IndexOf(views[..], key) == IndexOf(before, key) {
        SameKeysSameIndex(views[..], before, key);
      }
    }
    assert events[..|events|] == events;
  }

  lemma ApplyKeepsKey(view: StepView, e: ProgressEvent)
    ensures Apply(view, e).stepKey == view.stepKey
  {
  }

  lemma {:induction false} SameKeysSameIndex(a: seq<StepView>, b: seq<StepView>, key: string)
    requires |a| == |b| && forall k :: 0 <= k < |a| ==> a[k].stepKey == b[k].stepKey
    ensures IndexOf(a, key) == IndexOf(b, key)
  {
    if a != [] {
      SameKeysSameIndex(a[..|a| - 1], b[..|a| - 1], key);
    }
  }

  /** Merging one journal after another is merging their concatenation. */
  lemma {:induction false} MergeConcat(views: seq<StepView>, a: seq<ProgressEvent>, b: seq<ProgressEvent>)
    ensures Merged(views, a + b) == Merged(Merged(views, a), b)
    decreases |b|
  {
    if b == [] {
      assert a + b == a;
    } else {
      assert (a + b)[..|a + b| - 1] == a + b[..|b| - 1];
      MergeConcat(views, a, b[..|b| - 1]);
    }
  }

  // ----- What one view makes of its events -----

  function Folded(view: StepView, events: seq<ProgressEvent>): (r: StepView)
    ensures r.stepKey == view.stepKey
  {
    if events == [] then view else Apply(Folded(view, events[..|events| - 1]), events[|events| - 1])
  }

  function EventsFor(events: seq<ProgressEvent>, key: string): seq<ProgressEvent> {
    if events == [] then []
    else
      var before := EventsFor(events[..|events| - 1], key);
      if events[|events| - 1].stepKey == Some(key) then before + [events[|events| - 1]] else before
  }

  /** A view is changed by the events with its key alone, provided its key leads to it. */
  lemma {:induction false} ViewSeesOwnEvents(views: seq<StepView>, events: seq<ProgressEvent>, k: nat)
    requires k < |views|
    ensures Merged(views, events)[k] ==
            if IndexOf(views, views[k].stepKey) == Some(k) then Folded(views[k], EventsFor(events, views[k].stepKey)) else views[k]
    decreases |events|
  {
    if events != [] {
      var init, e := events[..|events| - 1], events[|events| - 1];
      var before := Merged(views, init);
      ViewSeesOwnEvents(views, init, k);
      SameKeysSameIndex(before, views, views[k].stepKey);
      if e.stepKey == Some(views[k].stepKey) {
        var own := EventsFor(init, views[k].stepKey);
        assert (own + [e])[..|own|] == own;
      } else if e.stepKey.Some? {
        assert IndexOf(before, e.stepKey.value) != Some(k);
      }
    }
  }

  /** Only the order of events with the same key matters; events for different keys commute. */
  lemma OrderMattersPerKeyOnly(views: seq<StepView>, a: seq<ProgressEvent>, b: seq<ProgressEvent>)
    requires forall key :: EventsFor(a, key) == EventsFor(b, key)
    ensures Merged(views, a) == Merged(views, b)
  {
    forall k | 0 <= k < |views| ensures Merged(views, a)[k] == Merged(views, b)[k] {
      ViewSeesOwnEvents(views, a, k);
      ViewSeesOwnEvents(views, b, k);
    }
  }

  // ----- The closed form -----

  function FirstWhere(events: seq<ProgressEvent>, p: ProgressEvent -> bool): (r: Option<ProgressEvent>)
    ensures r.Some? ==> p(r.value)
  {
    if events == [] then None
    else
      var first := FirstWhere(events[..|events| - 1], p);
      if first.Some? then first else if p(events[|events| - 1]) then Some(events[|events| - 1]) else None
  }

  function LastWhere(events: seq<ProgressEvent>, p: ProgressEvent -> bool): (r: Option<ProgressEvent>)
    ensures r.Some? ==> p(r.value)
  {
    if events == [] then None
    else if p(events[|events| - 1]) then Some(events[|events| - 1])
    else LastWhere(events[..|events| - 1], p)
  }

  function EndStatus(e: ProgressEvent): StepStatus {
    if KindOf(e).StepCompleted? then Completed else if KindOf(e).StepFailed? then Failed else Cancelled
  }

  /** The view after any journal, field by field, without replaying the journal. */
  function ClosedForm(view: StepView, events: seq<ProgressEvent>): StepView {
    var firstStart := FirstWhere(events, IsStart);
    var lastEnd := LastWhere(events, IsEnd);
    var kindGiven := LastWhere(events, e => IsStart(e) && Says(e.kind));
    var captionGiven := LastWhere(events, e => IsStart(e) && Says(e.message));
    var childGiven := LastWhere(events, e => KindOf(e).AgentStarted? && Says(e.childSessionId));
    var completed := LastWhere(events, e => KindOf(e).StepCompleted?);
    var failed := LastWhere(events, e => KindOf(e).StepFailed? || KindOf(e).StepCancelled?);
    view.(
      status :=
        if lastEnd.Some? then EndStatus(lastEnd.value)
        else if firstStart.Some? && !IsTerminal(view.status) then Running
        else view.status,
      startedAt := if view.startedAt.None? && firstStart.Some? then Some(firstStart.value.timestamp) else view.startedAt,
      finishedAt := if lastEnd.Some? then Some(lastEnd.value.timestamp) else view.finishedAt,
      kind := if kindGiven.Some? then kindGiven.value.kind.value else view.kind,
      caption := if captionGiven.Some? then captionGiven.value.message.value else view.caption,
      childSessionId := if childGiven.Some? then childGiven.value.childSessionId else view.childSessionId,
      output := if completed.Some? then completed.value.output else view.output,
      error :=
        if failed.None? then view.error
        else if failed.value.message.Some? then failed.value.message
        else failed.value.output)
  }

  lemma ClosedFormStart(view: StepView, events: seq<ProgressEvent>)
    requires events != [] && IsStart(events[|events| - 1])
    ensures ClosedForm(view, events) == Apply(ClosedForm(view, events[..|events| - 1]), events[|events| - 1])
  {
  }

  lemma ClosedFormEnd(view: StepView, events: seq<ProgressEvent>)
    requires events != [] && !IsStart(events[|events| - 1])
    ensures ClosedForm(view, events) == Apply(ClosedForm(view, events[..|events| - 1]), events[|events| - 1])
  {
  }

  lemma {:induction false} FoldedIsClosedForm(view: StepView, events: seq<ProgressEvent>)
    ensures Folded(view, events) == ClosedForm(view, events)
    decreases |events|
  {
    if events != [] {
      FoldedIsClosedForm(view, events[..|events| - 1]);
      if IsStart(events[|events| - 1]) {
        ClosedFormStart(view, events);
      } else {
        ClosedFormEnd(view, events);
      }
    }
  }

  lemma {:induction false} LastWhereFinds(events: seq<ProgressEvent>, p: ProgressEvent -> bool)
    ensures LastWhere(events, p).Some? <==> exists e :: e in events && p(e)
  {
    if events != [] {
      LastWhereFinds(events[..|events| - 1], p);
      assert events == events[..|events| - 1] + [events[|events| - 1]];
    }
  }

  /** A step that has ended never goes back to running. */
  lemma {:induction false} EndIsFinal(view: StepView, events: seq<ProgressEvent>)
    requires IsTerminal(view.status) || exists e :: e in events && IsEnd(e)
    ensures IsTerminal(Folded(view, events).status)
  {
    FoldedIsClosedForm(view, events);
    LastWhereFinds(events, IsEnd);
  }

  lemma FoldingTwiceChangesNothing(view: StepView, events: seq<ProgressEvent>)
    ensures Folded(Folded(view, events), events) == Folded(view, events)
  {
    FoldedIsClosedForm(view, events);
    FoldedIsClosedForm(ClosedForm(view, events), events);
  }

  /** Merging a journal twice is merging it once, for any list of views. */
  lemma MergeIsIdempotent(views: seq<StepView>, events: seq<ProgressEvent>)
    ensures Merged(Merged(views, events), events) == Merged(views, events)
  {
    var once := Merged(views, events);
    forall k | 0 <= k < |views| ensures Merged(once, events)[k] == once[k] {
      ViewSeesOwnEvents(views, events, k);
      ViewSeesOwnEvents(once, events, k);
      SameKeysSameIndex(once, views, views[k].stepKey);
      FoldingTwiceChangesNothing(views[k], EventsFor(events, views[k].stepKey));
    }
  }

  // ----- The fields, told from the texts of the events -----

  predicate EndsStep(e: ProgressEvent) {
    e.event == "step_completed" || e.event == "step_failed" || e.event == "step_cancelled"
  }

  predicate StartsStep(e: ProgressEvent) {
    e.event == "step_started" || e.event == "agent_started" || e.event == "phase_started" || e.event == "parallel_started"
  }

  lemma KindsDiffer(e: ProgressEvent)
    ensures e.event == "step_completed" ==> KindOf(e) == StepCompleted
    ensures e.event == "step_failed" ==> KindOf(e) == StepFailed
    ensures e.event == "step_cancelled" ==> KindOf(e) == StepCancelled
    ensures e.event == "agent_started" ==> KindOf(e) == AgentStarted
    ensures KindOf(e) == AgentStarted ==> e.event == "agent_started"
    ensures IsEnd(e) <==> EndsStep(e)
    ensures IsStart(e) <==> StartsStep(e)
  {
    assert "agent_started"[0] == 'a' && "phase_started"[0] == 'p' && "step_started"[0] == 's';
    assert "step_completed"[6] == 'o' && "step_cancelled"[6] == 'a';
    assert |"step_started"| == 12 && |"agent_started"| == 13 && |"phase_started"| == 13 && |"parallel_started"| == 16;
    assert |"step_completed"| == 14 && |"step_failed"| == 11 && |"step_cancelled"| == 14;
  }

  lemma FoldedSnoc(view: StepView, events: seq<ProgressEvent>, e: ProgressEvent)
    ensures Folded(view, events + [e]) == Apply(Folded(view, events), e)
  {
    assert (events + [e])[..|events|] == events;
  }

  /** The last event that ends a step decides its status, when it finished, and its output or error. */
  lemma {:induction false} LastEndDecides(view: StepView, before: seq<ProgressEvent>, e: ProgressEvent, after: seq<ProgressEvent>)
    requires EndsStep(e) && forall x :: x in after ==> !EndsStep(x)
    ensures var v := Folded(view, before + [e] + after);
            && v.status == (if e.event == "step_completed" then Completed else if e.event == "step_failed" then Failed else Cancelled)
            && v.finishedAt == Some(e.timestamp)
            && (e.event == "step_completed" ==> v.output == e.output)
            && (e.event != "step_completed" ==> v.error == if e.message.Some? then e.message else e.output)
    decreases |after|
  {
    hide KindOf, Folded, Says;
    KindsDiffer(e);
    if after == [] {
      assert before + [e] + after == before + [e];
      FoldedSnoc(view, before, e);
    } else {
      var init, last := after[..|after| - 1], after[|after| - 1];
      KindsDiffer(last);
      LastEndDecides(view, before, e, init);
      assert before + [e] + after == before + [e] + init + [last];
      FoldedSnoc(view, before + [e] + init, last);
    }
  }

  /** As long as no event ends it, a step runs from its first start on, and started when that was. */
  lemma {:induction false} FirstStartDecides(view: StepView, before: seq<ProgressEvent>, e: ProgressEvent, after: seq<ProgressEvent>)
    requires !IsTerminal(view.status) && view.startedAt.None?
    requires StartsStep(e) && (forall x :: x in before ==> !StartsStep(x) && !EndsStep(x)) && forall x :: x in after ==> !EndsStep(x)
    ensures Folded(view, before) == view
    ensures var v := Folded(view, before + [e] + after); v.status == Running && v.startedAt == Some(e.timestamp)
    decreases |before| + |after|
  {
    hide KindOf, Folded, Says;
    KindsDiffer(e);
    if after != [] {
      var init, last := after[..|after| - 1], after[|after| - 1];
      KindsDiffer(last);
      FirstStartDecides(view, before, e, init);
      assert before + [e] + after == before + [e] + init + [last];
      FoldedSnoc(view, before + [e] + init, last);
    } else {
      OtherEventsChangeNothing(view, before);
      assert before + [e] + after == before + [e];
      FoldedSnoc(view, before, e);
    }
  }

  /** Events with any other text change nothing. */
  lemma {:induction false} OtherEventsChangeNothing(view: StepView, events: seq<ProgressEvent>)
    requires forall x :: x in events ==> !StartsStep(x) && !EndsStep(x)
    ensures Folded(view, events) == view
  {
    if events != [] {
      OtherEventsChangeNothing(view, events[..|events| - 1]);
      KindsDiffer(events[|events| - 1]);
    }
  }

  predicate HasVisible(text: Option<string>) {
    text.Some? && exists i :: 0 <= i < |text.value| && !IsWhitespace(text.value[i])
  }

  lemma SaysIsVisible(text: Option<string>)
    ensures Says(text) <==> HasVisible(text)
  {
  }

  /** The last starting event that gives a kind, a message or a child session that is not blank sets it. */
  lemma {:induction false} LastTextDecides(view: StepView, before: seq<ProgressEvent>, e: ProgressEvent, after: seq<ProgressEvent>)
    requires StartsStep(e)
    ensures var v := Folded(view, before + [e] + after);
            && (HasVisible(e.kind) && (forall x :: x in after && StartsStep(x) ==> !HasVisible(x.kind)) ==> v.kind == e.kind.value)
            && (HasVisible(e.message) && (forall x :: x in after && StartsStep(x) ==> !HasVisible(x.message)) ==> v.caption == e.message.value)
            && (e.event == "agent_started" && HasVisible(e.childSessionId)
                && (forall x :: x in after && x.event == "agent_started" ==> !HasVisible(x.childSessionId)) ==>
                  v.childSessionId == e.childSessionId)
    decreases |after|
  {
    hide KindOf, Folded, Says, HasVisible;
    SaysIsVisible(e.kind);
    SaysIsVisible(e.message);
    SaysIsVisible(e.childSessionId);
    KindsDiffer(e);
    if after == [] {
      assert before + [e] + after == before + [e];
      FoldedSnoc(view, before, e);
    } else {
      var init, last := after[..|after| - 1], after[|after| - 1];
      KindsDiffer(last);
      SaysIsVisible(last.kind);
      SaysIsVisible(last.message);
      SaysIsVisible(last.childSessionId);
      LastTextDecides(view, before, e, init);
      assert before + [e] + after == before + [e] + init + [last];
      FoldedSnoc(view, before + [e] + init, last);
    }
  }

  // ----- The tree and its journal together -----

  method ReadWorkflowStepViews(steps: seq<Json>, events: seq<ProgressEvent>) returns (views: array<StepView>)
    ensures fresh(views) && views[..] == Merged(AllViews(steps), events)
  {
    var list := new ViewList();
    list.AppendWorkflowStepViews(steps, ROOT, None, 0);
    var flat := list.views;
    views := new StepView[|flat|](i requires 0 <= i < |flat| => flat[i]);
    assert views[..] == flat == AllViews(steps);
    MergeWorkflowStepEvents(views, events);
  }

  /** Every step of a document ends with the closed form of exactly the events that carry its key. */
  lemma EveryStepGetsItsEvents(steps: seq<Json>, events: seq<ProgressEvent>, k: nat)
    requires k < |AllViews(steps)|
    ensures Merged(AllViews(steps), events)[k] ==
            ClosedForm(AllViews(steps)[k], EventsFor(events, AllViews(steps)[k].stepKey))
  {
    var views := AllViews(steps);
    ViewSeesOwnEvents(views, events, k);
    FoldedIsClosedForm(views[k], EventsFor(events, views[k].stepKey));
    var index := IndexOf(views, views[k].stepKey).value;
    if index != k {
      KeysAreDistinct(steps, if index < k then index else k, if index < k then k else index);
    }
  }
}
