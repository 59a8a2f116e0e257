/**
 The step views of a background workflow: the recursive step tree of the workflow document,
 flattened into a list whose entries are addressed by path-encoded keys.
 */
module WorkflowSteps {
  import opened Text
  import opened Wrappers

  datatype Json =
    | Null
    | Scalar(raw: string)
    | Text(text: string)
    | Array(items: seq<Json>)
    | Object(fields: map<string, Json>)

  type Timestamp = int

  datatype StepStatus = Pending | Running | Completed | Failed | Cancelled

  datatype StepView = StepView(
    stepKey: string,
    parentKey: Option<string>,
    depth: nat,
    kind: string,
    caption: string,
    status: StepStatus,
    startedAt: Option<Timestamp>,
    finishedAt: Option<Timestamp>,
    output: Option<string>,
    error: Option<string>,
    childSessionId: Option<string>)

  // ----- The shape of one step -----

  function Get(j: Json, key: string): (r: Option<Json>)
    ensures r.Some? ==> r.value < j
  {
    if j.Object? && key in j.fields then Some(j.fields[key]) else None
  }

  function NonNull(j: Json, key: string): (r: Option<Json>)
    ensures r.Some? ==> r.value < j && r == Get(j, key)
  {
    var r := Get(j, key);
    if r.Some? && !r.value.Null? then r else None
  }

  function TextOr(j: Json, key: string, default: string): string {
    var r := Get(j, key);
    if r.Some? && r.value.Text? then r.value.text else default
  }

  function Items(j: Json, key: string): (r: Option<seq<Json>>)
    ensures r.Some? ==> forall x :: x in r.value ==> x < j
  {
    var r := Get(j, key);
    if r.Some? && r.value.Array? then Some(r.value.items) else None
  }

  function CountOf(children: Option<seq<Json>>): nat {
    if children.Some? then |children.value| else 0
  }

  datatype Shape = Shape(kind: string, caption: string, children: Option<seq<Json>>)

  /** The first non-null key in this order decides; the other keys are ignored. */
  function WorkflowStepShape(step: Json): Shape {
    var agent := NonNull(step, "agent");
    var log := NonNull(step, "log");
    var phase := NonNull(step, "phase");
    var parallel := NonNull(step, "parallel");
    var pipeline := NonNull(step, "pipeline");
    if agent.Some? then Shape("agent", TextOr(agent.value, "description", "Agent step"), None)
    else if log.Some? then Shape("log", TextOr(log.value, "message", "Log step"), None)
    else if phase.Some? then Shape("phase", TextOr(phase.value, "name", "Phase"), Items(phase.value, "steps"))
    else if parallel.Some? then
      var children := Items(parallel.value, "steps");
      Shape("parallel", Decimal(CountOf(children)) + " parallel steps", children)
    else if pipeline.Some? then
      var children := Items(pipeline.value, "steps");
      Shape("pipeline", Decimal(CountOf(children)) + " pipeline steps", children)
    else Shape("unknown", "Unknown step", None)
  }

  function Children(step: Json): (r: seq<Json>)
    ensures forall x :: x in r ==> x < step
  {
    var children := WorkflowStepShape(step).children;
    if children.Some? then children.value else []
  }

  function NewView(step: Json, key: string, parentKey: Option<string>, depth: nat): StepView {
    var shape := WorkflowStepShape(step);
    StepView(key, parentKey, depth, shape.kind, shape.caption, Pending, None, None, None, None, None)
  }

  // ----- The shape, told from the document -----

  predicate Gives(step: Json, key: string) {
    step.Object? && key in step.fields && !step.fields[key].Null?
  }

  predicate SaysText(step: Json, key: string, field: string, text: string) {
    && Gives(step, key) && step.fields[key].Object?
    && field in step.fields[key].fields && step.fields[key].fields[field] == Text(text)
  }

  predicate ListsSteps(step: Json, key: string, items: seq<Json>) {
    && Gives(step, key) && step.fields[key].Object?
    && "steps" in step.fields[key].fields && step.fields[key].fields["steps"] == Array(items)
  }

  /** An agent comes before a log message, and both before anything with steps; neither has steps below it. */
  lemma LeafShapes(step: Json, text: string)
    ensures var shape := WorkflowStepShape(step);
            && (Gives(step, "agent") ==> shape.kind == "agent" && Children(step) == [])
            && (SaysText(step, "agent", "description", text) ==> shape.caption == text)
            && (!Gives(step, "agent") && Gives(step, "log") ==> shape.kind == "log" && Children(step) == [])
            && (!Gives(step, "agent") && SaysText(step, "log", "message", text) ==> shape.caption == text)
  {
  }

  /** Without a text of its own a step is called by its kind. */
  lemma DefaultCaptions(step: Json)
    ensures var caption := WorkflowStepShape(step).caption;
            && (Gives(step, "agent") ==> SaysText(step, "agent", "description", caption) || caption == "Agent step")
            && (!Gives(step, "agent") && Gives(step, "log") ==> SaysText(step, "log", "message", caption) || caption == "Log step")
            && (!Gives(step, "agent") && !Gives(step, "log") && Gives(step, "phase") ==>
                  SaysText(step, "phase", "name", caption) || caption == "Phase")
            && ((!Gives(step, "agent") && !Gives(step, "log") && !Gives(step, "phase") && !Gives(step, "parallel")
                 && !Gives(step, "pipeline")) ==> caption == "Unknown step")
  {
  }

  /** A phase comes next. */
  lemma PhaseShape(step: Json, text: string, items: seq<Json>)
    requires !Gives(step, "agent") && !Gives(step, "log") && Gives(step, "phase")
    ensures WorkflowStepShape(step).kind == "phase"
    ensures SaysText(step, "phase", "name", text) ==> WorkflowStepShape(step).caption == text
    ensures ListsSteps(step, "phase", items) ==> Children(step) == items
  {
    hide Decimal;
  }

  /** Then parallel steps, which are counted. */
  lemma ParallelShape(step: Json, items: seq<Json>)
    requires !Gives(step, "agent") && !Gives(step, "log") && !Gives(step, "phase") && ListsSteps(step, "parallel", items)
    ensures WorkflowStepShape(step) == Shape("parallel", Decimal(|items|) + " parallel steps", Some(items))
  {
    hide Decimal, TextOr;
  }

  /** Then a pipeline, which is counted too; and without any of these keys a step is unknown. */
  lemma PipelineShape(step: Json, items: seq<Json>)
    requires !Gives(step, "agent") && !Gives(step, "log") && !Gives(step, "phase") && !Gives(step, "parallel")
    ensures ListsSteps(step, "pipeline", items) ==>
              WorkflowStepShape(step) == Shape("pipeline", Decimal(|items|) + " pipeline steps", Some(items))
    ensures !Gives(step, "pipeline") ==> WorkflowStepShape(step).kind == "unknown" && Children(step) == []
  {
    hide Decimal, TextOr;
  }

  // ----- Flattening -----

  /** The views of steps[index..] and of everything below them. */
  function Flatten(steps: seq<Json>, index: nat, prefix: string, parentKey: Option<string>, depth: nat): seq<StepView>
    requires index <= |steps|
    decreases steps, |steps| - index
  {
    if index == |steps| then []
    else
      var key := prefix + "." + Decimal(index);
      [NewView(steps[index], key, parentKey, depth)]
      + (if Children(steps[index]) == [] then [] else Flatten(Children(steps[index]), 0, key, Some(key), depth + 1))
      + Flatten(steps, index + 1, prefix, parentKey, depth)
  }

  class ViewList {
    var views: seq<StepView>

    constructor ()
      ensures views == []
    {
      views := [];
    }

    method AppendWorkflowStepViews(steps: seq<Json>, prefix: string, parentKey: Option<string>, depth: nat)
      modifies this
      ensures views == old(views) + Flatten(steps, 0, prefix, parentKey, depth)
      decreases steps
    {
      hide Flatten, TextOr, Decimal, CountOf;
      ghost var all := Flatten(steps, 0, prefix, parentKey, depth);
      for index := 0 to |steps|
        invariant views + Flatten(steps, index, prefix, parentKey, depth) == old(views) + all
      {
        ghost var before := views;
        var key := prefix + "." + Decimal(index);
        var view := NewView(steps[index], key, parentKey, depth);
        views := views + [view];
        var children := WorkflowStepShape(steps[index]).children;
        ghost var below := Flatten(Children(steps[index]), 0, key, Some(key), depth + 1);
        if children.Some? {
          AppendWorkflowStepViews(children.value, key, Some(key), depth + 1);
        }
        FlattenStep(steps, index, prefix, parentKey, depth);
        FlattenNone(Children(steps[index]), key, Some(key), depth + 1);
        Regroup(before, view, below, Flatten(steps, index + 1, prefix, parentKey, depth));
      }
      FlattenStep(steps, |steps|, prefix, parentKey, depth);
    }
  }

  lemma Regroup<T>(a: seq<T>, x: T, b: seq<T>, c: seq<T>)
    ensures a + [x] + b + c == a + ([x] + b + c)
    ensures b == [] ==> a + [x] + b == a + [x]
  {
  }

  // ----- Paths -----

  type Path = seq<nat>

  /** The step that a path leads to, counting children from zero at each level. */
  function NodeAt(steps: seq<Json>, path: Path): Option<Json>
    decreases |path|
  {
    if path == [] || path[0] >= |steps| then None
    else if |path| == 1 then Some(steps[path[0]])
    else NodeAt(Children(steps[path[0]]), path[1..])
  }

  function Suffix(path: Path): string {
    if path == [] then "" else "." + Decimal(path[0]) + Suffix(path[1..])
  }

  function Parent(path: Path): Path
    requires path != []
  {
    path[..|path| - 1]
  }

  /** The view that belongs at a path, stated from the path alone. */
  function ViewAt(node: Json, path: Path, prefix: string, parentKey: Option<string>, depth: nat): StepView
    requires path != []
  {
    NewView(node, prefix + Suffix(path), if |path| == 1 then parentKey else Some(prefix + Suffix(Parent(path))), depth + |path| - 1)
  }

  /** Document order: a step before what is below it, and before its later siblings. */
  predicate Before(p: Path, q: Path) {
    q != [] && (p == [] || p[0] < q[0] || (p[0] == q[0] && Before(p[1..], q[1..])))
  }

  function Under(i: nat, paths: seq<Path>): (r: seq<Path>)
    ensures |r| == |paths| && forall k :: 0 <= k < |r| ==> r[k] == [i] + paths[k]
  {
    seq(|paths|, k requires 0 <= k < |paths| => [i] + paths[k])
  }

  /** All paths into steps[index..]. */
  function Paths(steps: seq<Json>, index: nat): seq<Path>
    requires index <= |steps|
    decreases steps, |steps| - index
  {
    if index == |steps| then []
    else
      [[index]]
      + (if Children(steps[index]) == [] then [] else Under(index, Paths(Children(steps[index]), 0)))
      + Paths(steps, index + 1)
  }

  /** Where the digits of one numeral end, those of the other have ended too. */
  lemma DigitsEnd(a: string, x: string, b: string, y: string)
    requires a + x == b + y
    requires forall i :: 0 <= i < |a| ==> '0' <= a[i] <= '9'
    requires y == "" || y[0] == '.'
    ensures |a| <= |b|
  {
    assert forall i :: 0 <= i < |a| ==> (a + x)[i] == a[i];
    assert y != "" ==> (b + y)[|b|] == '.';
  }

  lemma {:induction false} SuffixIsInjective(p: Path, q: Path)
    requires Suffix(p) == Suffix(q)
    ensures p == q
    decreases |p|
  {
    hide Decimal, Value;
    if p != [] && q != [] {
      var a, b, x, y := Decimal(p[0]), Decimal(q[0]), Suffix(p[1..]), Suffix(q[1..]);
      assert a + x == Suffix(p)[1..] == b + y;
      DigitsEnd(a, x, b, y);
      DigitsEnd(b, y, a, x);
      assert a == (a + x)[..|a|] == (b + y)[..|b|] == b;
      assert x == (a + x)[|a|..] == (b + y)[|b|..] == y;
      ValueOfDecimal(p[0]);
      ValueOfDecimal(q[0]);
      SuffixIsInjective(p[1..], q[1..]);
    }
  }

  /** One level of the path list. */
  lemma PathsStep(steps: seq<Json>, index: nat)
    requires index <= |steps|
    ensures Paths(steps, index) ==
            if index == |steps| then []
            else
              [[index]] + Under(index, if Children(steps[index]) == [] then [] else Paths(Children(steps[index]), 0))
              + Paths(steps, index + 1)
  {
  }

  lemma PathIndex(i: nat, below: seq<Path>, later: seq<Path>, k: nat)
    requires k <= |below| + |later|
    ensures var paths := [[i]] + Under(i, below) + later;
            && |paths| == 1 + |below| + |later|
            && paths[k] == if k == 0 then [i] else if k <= |below| then [i] + below[k - 1] else later[k - 1 - |below|]
  {
  }

  lemma NodeBelow(steps: seq<Json>, index: nat, q: Path)
    requires index < |steps| && q != []
    ensures NodeAt(steps, [index] + q) == NodeAt(Children(steps[index]), q)
  {
    assert ([index] + q)[1..] == q;
  }

  lemma {:induction false} PathsAreNodes(steps: seq<Json>, index: nat, k: nat)
    requires index <= |steps| && k < |Paths(steps, index)|
    ensures var p := Paths(steps, index)[k]; p != [] && p[0] >= index && NodeAt(steps, p).Some?
    decreases steps, |steps| - index
  {
    hide Paths, Under, TextOr, Decimal, CountOf;
    PathsStep(steps, index);
    var children := Children(steps[index]);
    var below := if children == [] then [] else Paths(children, 0);
    PathIndex(index, below, Paths(steps, index + 1), k);
    if k == 0 {
    } else if k <= |below| {
      PathsAreNodes(children, 0, k - 1);
      NodeBelow(steps, index, below[k - 1]);
    } else {
      PathsAreNodes(steps, index + 1, k - 1 - |below|);
    }
  }

  lemma {:induction false} NodesHavePaths(steps: seq<Json>, index: nat, p: Path)
    requires index <= |steps| && NodeAt(steps, p).Some? && p[0] >= index
    ensures p in Paths(steps, index)
    decreases steps, |steps| - index
  {
    hide Paths, Under, TextOr, Decimal, CountOf;
    PathsStep(steps, index);
    var children := Children(steps[index]);
    var below, later := if children == [] then [] else Paths(children, 0), Paths(steps, index + 1);
    if p[0] > index {
      NodesHavePaths(steps, index + 1, p);
      var k :| 0 <= k < |later| && later[k] == p;
      PathIndex(index, below, later, k + 1 + |below|);
    } else if |p| > 1 {
      NodesHavePaths(children, 0, p[1..]);
      var k :| 0 <= k < |below| && below[k] == p[1..];
      assert p == [index] + p[1..];
      PathIndex(index, below, later, k + 1);
    } else {
      assert p == [index];
      PathIndex(index, below, later, 0);
    }
  }

  ghost predicate InOrder(paths: seq<Path>) {
    forall j, k :: 0 <= j < k < |paths| ==> Before(paths[j], paths[k])
  }

  lemma NothingInOrder()
    ensures InOrder([])
  {
  }

  lemma ConcatInOrder(a: seq<Path>, b: seq<Path>)
    requires InOrder(a) && InOrder(b)
    requires forall j, k :: 0 <= j < |a| && 0 <= k < |b| ==> Before(a[j], b[k])
    ensures InOrder(a + b)
  {
  }

  lemma SiblingsInOrder(i: nat, a: seq<Path>, b: seq<Path>)
    requires InOrder(a) && forall j :: 0 <= j < |a| ==> a[j] != [] && a[j][0] == i
    requires InOrder(b) && forall k :: 0 <= k < |b| ==> b[k] != [] && b[k][0] > i
    ensures InOrder(a + b)
  {
    ConcatInOrder(a, b);
  }

  lemma UnderInOrder(i: nat, paths: seq<Path>)
    requires InOrder(paths) && forall k :: 0 <= k < |paths| ==> paths[k] != []
    ensures InOrder([[i]] + Under(i, paths))
  {
    var under := Under(i, paths);
    forall j, k | 0 <= j < k < |under| ensures Before(under[j], under[k]) {
      assert under[j][1..] == paths[j] && under[k][1..] == paths[k];
    }
    forall k | 0 <= k < |under| ensures Before([i], under[k]) {
      assert [i][1..] == [] && under[k][1..] == paths[k];
    }
    ConcatInOrder([[i]], under);
  }

  lemma {:induction false} PathsInOrder(steps: seq<Json>, index: nat)
    requires index <= |steps|
    ensures InOrder(Paths(steps, index))
    ensures forall k :: 0 <= k < |Paths(steps, index)| ==> Paths(steps, index)[k] != [] && Paths(steps, index)[k][0] >= index
    decreases steps, |steps| - index
  {
    hide Before, InOrder, Paths;
    PathsStep(steps, index);
    if index == |steps| {
      NothingInOrder();
    } else {
      var below := if Children(steps[index]) == [] then [] else Paths(Children(steps[index]), 0);
      if Children(steps[index]) != [] {
        PathsInOrder(Children(steps[index]), 0);
      } else {
        NothingInOrder();
      }
      PathsInOrder(steps, index + 1);
      UnderInOrder(index, below);
      SiblingsInOrder(index, [[index]] + Under(index, below), Paths(steps, index + 1));
      assert Paths(steps, index) == [[index]] + Under(index, below) + Paths(steps, index + 1);
    }
  }

  lemma {:induction false} BeforeIsIrreflexive(p: Path)
    ensures !Before(p, p)
  {
    if p != [] {
      BeforeIsIrreflexive(p[1..]);
    }
  }

  lemma ChildView(node: Json, index: nat, q: Path, prefix: string, parentKey: Option<string>, depth: nat)
    requires q != []
    ensures var key := prefix + "." + Decimal(index);
            ViewAt(node, q, key, Some(key), depth + 1) == ViewAt(node, [index] + q, prefix, parentKey, depth)
  {
    hide NewView, Decimal;
    var key := prefix + "." + Decimal(index);
    var p := [index] + q;
    assert p[1..] == q;
    assert key + Suffix(q) == prefix + Suffix(p);
    if |q| == 1 {
      assert Parent(p) == [index] && [index][1..] == [];
      assert key == prefix + Suffix(Parent(p));
    } else {
      assert Parent(p)[1..] == Parent(q);
      assert key + Suffix(Parent(q)) == prefix + Suffix(Parent(p));
    }
  }

  ghost predicate BelongsAt(steps: seq<Json>, view: StepView, path: Path, prefix: string, parentKey: Option<string>, depth: nat) {
    path != [] && NodeAt(steps, path).Some? && view == ViewAt(NodeAt(steps, path).value, path, prefix, parentKey, depth)
  }

  ghost predicate ViewsMatch(steps: seq<Json>, views: seq<StepView>, paths: seq<Path>,
                             prefix: string, parentKey: Option<string>, depth: nat) {
    && |views| == |paths|
    && forall k :: 0 <= k < |paths| ==> BelongsAt(steps, views[k], paths[k], prefix, parentKey, depth)
  }

  lemma BelowMatches(steps: seq<Json>, index: nat, views: seq<StepView>, paths: seq<Path>,
                     prefix: string, parentKey: Option<string>, depth: nat)
    requires index < |steps|
    requires var key := prefix + "." + Decimal(index);
             ViewsMatch(Children(steps[index]), views, paths, key, Some(key), depth + 1)
    ensures ViewsMatch(steps, views, Under(index, paths), prefix, parentKey, depth)
  {
    var lifted := Under(index, paths);
    forall k | 0 <= k < |paths|
      ensures BelongsAt(steps, views[k], lifted[k], prefix, parentKey, depth)
    {
      var key := prefix + "." + Decimal(index);
      assert BelongsAt(Children(steps[index]), views[k], paths[k], key, Some(key), depth + 1);
      assert lifted[k][1..] == paths[k];
      ChildView(NodeAt(steps, lifted[k]).value, index, paths[k], prefix, parentKey, depth);
    }
  }

  lemma ConcatMatches(steps: seq<Json>, v: seq<StepView>, p: seq<Path>, w: seq<StepView>, q: seq<Path>,
                      prefix: string, parentKey: Option<string>, depth: nat)
    requires ViewsMatch(steps, v, p, prefix, parentKey, depth) && ViewsMatch(steps, w, q, prefix, parentKey, depth)
    ensures ViewsMatch(steps, v + w, p + q, prefix, parentKey, depth)
  {
    hide BelongsAt;
    forall k | 0 <= k < |p + q| ensures BelongsAt(steps, (v + w)[k], (p + q)[k], prefix, parentKey, depth) {
      if k < |p| {
        assert BelongsAt(steps, v[k], p[k], prefix, parentKey, depth);
      } else {
        assert BelongsAt(steps, w[k - |p|], q[k - |p|], prefix, parentKey, depth);
      }
    }
  }

  lemma OwnView(steps: seq<Json>, index: nat, prefix: string, parentKey: Option<string>, depth: nat)
    requires index < |steps|
    ensures ViewsMatch(steps, [NewView(steps[index], prefix + "." + Decimal(index), parentKey, depth)], [[index]],
                       prefix, parentKey, depth)
  {
    assert [index][1..] == [] && prefix + "." + Decimal(index) == prefix + Suffix([index]);
  }

  lemma UnderNothing(i: nat)
    ensures Under(i, []) == []
  {
  }

  lemma NoViewsMatch(steps: seq<Json>, prefix: string, parentKey: Option<string>, depth: nat)
    ensures ViewsMatch(steps, [], [], prefix, parentKey, depth)
  {
  }

  lemma {:induction false} ViewsFollowPaths(steps: seq<Json>, index: nat, prefix: string, parentKey: Option<string>, depth: nat)
    requires index <= |steps|
    ensures ViewsMatch(steps, Flatten(steps, index, prefix, parentKey, depth), Paths(steps, index), prefix, parentKey, depth)
    decreases steps, |steps| - index
  {
    hide BelongsAt, ViewsMatch, NewView, Decimal, TextOr, CountOf, Under, Paths, Flatten;
    PathsStep(steps, index);
    FlattenStep(steps, index, prefix, parentKey, depth);
    if index == |steps| {
      NoViewsMatch(steps, prefix, parentKey, depth);
    } else {
      var key := prefix + "." + Decimal(index);
      var children := Children(steps[index]);
      var view := NewView(steps[index], key, parentKey, depth);
      var views := if children == [] then [] else Flatten(children, 0, key, Some(key), depth + 1);
      var paths := Under(index, if children == [] then [] else Paths(children, 0));
      OwnView(steps, index, prefix, parentKey, depth);
      if children != [] {
        ViewsFollowPaths(children, 0, key, Some(key), depth + 1);
        BelowMatches(steps, index, views, Paths(children, 0), prefix, parentKey, depth);
      } else {
        NoViewsMatch(steps, prefix, parentKey, depth);
        UnderNothing(index);
      }
      ConcatMatches(steps, [view], [[index]], views, paths, prefix, parentKey, depth);
      ViewsFollowPaths(steps, index + 1, prefix, parentKey, depth);
      ConcatMatches(steps, [view] + views, [[index]] + paths, Flatten(steps, index + 1, prefix, parentKey, depth),
                    Paths(steps, index + 1), prefix, parentKey, depth);
    }
  }

  lemma FlattenNone(steps: seq<Json>, prefix: string, parentKey: Option<string>, depth: nat)
    ensures steps == [] ==> Flatten(steps, 0, prefix, parentKey, depth) == []
  {
  }

  lemma FlattenStep(steps: seq<Json>, index: nat, prefix: string, parentKey: Option<string>, depth: nat)
    requires index <= |steps|
    ensures Flatten(steps, index, prefix, parentKey, depth) ==
            if index == |steps| then []
            else
              var key := prefix + "." + Decimal(index);
              [NewView(steps[index], key, parentKey, depth)]
              + (if Children(steps[index]) == [] then [] else Flatten(Children(steps[index]), 0, key, Some(key), depth + 1))
              + Flatten(steps, index + 1, prefix, parentKey, depth)
  {
  }

  // ----- The list of all views -----

  const ROOT := "step"

  /** The views of a whole workflow document, as the reader of step views starts the flattening. */
  function AllViews(steps: seq<Json>): seq<StepView> {
    Flatten(steps, 0, ROOT, None, 0)
  }

  /**
   For every document there is exactly one view per reachable step, in document order, and each
   view says what its own path says: key, parent key, depth and shape.
   */
  lemma OneViewPerStep(steps: seq<Json>)
    ensures var paths := Paths(steps, 0);
            && ViewsMatch(steps, AllViews(steps), paths, ROOT, None, 0)
            && (forall p :: p in paths <==> NodeAt(steps, p).Some?)
            && InOrder(paths)
  {
    var paths := Paths(steps, 0);
    ViewsFollowPaths(steps, 0, ROOT, None, 0);
    forall p ensures p in paths <==> NodeAt(steps, p).Some? {
      if NodeAt(steps, p).Some? {
        NodesHavePaths(steps, 0, p);
      }
    }
    PathsInOrder(steps, 0);
  }

  /** A view starts with the shape of its step and with nothing that only the journal can tell. */
  lemma ViewsStartPending(steps: seq<Json>, k: nat)
    requires k < |AllViews(steps)|
    ensures var view := AllViews(steps)[k];
            && view.status == Pending && view.startedAt.None? && view.finishedAt.None?
            && view.output.None? && view.error.None? && view.childSessionId.None?
            && k < |Paths(steps, 0)| && NodeAt(steps, Paths(steps, 0)[k]).Some?
            && var shape := WorkflowStepShape(NodeAt(steps, Paths(steps, 0)[k]).value);
               view.kind == shape.kind && view.caption == shape.caption
  {
    hide WorkflowStepShape, Paths, Flatten, NodeAt, Suffix;
    OneViewPerStep(steps);
    assert BelongsAt(steps, AllViews(steps)[k], Paths(steps, 0)[k], ROOT, None, 0);
  }

  /** No two views share a key, so a key leads back to the one view that carries it. */
  lemma KeysAreDistinct(steps: seq<Json>, j: nat, k: nat)
    requires j < k < |AllViews(steps)|
    ensures AllViews(steps)[j].stepKey != AllViews(steps)[k].stepKey
  {
    var paths := Paths(steps, 0);
    OneViewPerStep(steps);
    BeforeIsIrreflexive(paths[j]);
    assert BelongsAt(steps, AllViews(steps)[j], paths[j], ROOT, None, 0);
    assert BelongsAt(steps, AllViews(steps)[k], paths[k], ROOT, None, 0);
    if ROOT + Suffix(paths[j]) == ROOT + Suffix(paths[k]) {
      assert Suffix(paths[j]) == (ROOT + Suffix(paths[j]))[|ROOT|..] == Suffix(paths[k]);
      SuffixIsInjective(paths[j], paths[k]);
    }
  }

  /** The position of the view at a path. */
  lemma ViewOfNode(steps: seq<Json>, p: Path) returns (k: nat)
    requires NodeAt(steps, p).Some?
    ensures k < |AllViews(steps)| == |Paths(steps, 0)| && Paths(steps, 0)[k] == p
    ensures BelongsAt(steps, AllViews(steps)[k], p, ROOT, None, 0)
  {
    hide NodeAt, Paths, Flatten, BelongsAt, InOrder;
    OneViewPerStep(steps);
    k :| 0 <= k < |Paths(steps, 0)| && Paths(steps, 0)[k] == p;
  }

  lemma SuffixOfChild(p: Path, i: nat)
    ensures Suffix(p + [i]) == Suffix(p) + "." + Decimal(i)
  {
    if p == [] {
      assert p + [i] == [i] && [i][1..] == [];
    } else {
      assert (p + [i])[1..] == p[1..] + [i];
      SuffixOfChild(p[1..], i);
    }
  }

  lemma FieldsAtPath(steps: seq<Json>, view: StepView, p: Path)
    requires BelongsAt(steps, view, p, ROOT, None, 0)
    ensures view.stepKey == ROOT + Suffix(p) && view.depth == |p| - 1
    ensures view.parentKey == if |p| == 1 then None else Some(ROOT + Suffix(Parent(p)))
  {
    hide NodeAt, Suffix, WorkflowStepShape;
  }

  /** The i-th top step has the key `step.i`. */
  lemma TopKeys(steps: seq<Json>, i: nat)
    requires i < |steps|
    ensures exists k :: 0 <= k < |AllViews(steps)| && AllViews(steps)[k].stepKey == "step." + Decimal(i)
                        && AllViews(steps)[k].parentKey.None? && AllViews(steps)[k].depth == 0
  {
    hide Paths, Flatten, Suffix, Decimal, BelongsAt;
    assert NodeAt(steps, [i]) == Some(steps[i]);
    var k := ViewOfNode(steps, [i]);
    FieldsAtPath(steps, AllViews(steps)[k], [i]);
    SuffixOfChild([], i);
    FirstSuffix(i);
  }

  lemma FirstSuffix(i: nat)
    ensures ROOT + Suffix([i]) == "step." + Decimal(i)
  {
    hide Decimal;
    assert [i][1..] == [];
  }

  /** The i-th step below another has that one's key, a dot and i for its key, and names it as its parent. */
  lemma ChildKeys(steps: seq<Json>, p: Path, i: nat, j: nat, k: nat)
    requires p != [] && NodeAt(steps, p).Some? && NodeAt(steps, p + [i]).Some?
    requires j < |AllViews(steps)| && k < |AllViews(steps)| && |AllViews(steps)| == |Paths(steps, 0)|
    requires Paths(steps, 0)[j] == p && Paths(steps, 0)[k] == p + [i]
    ensures var parent, child := AllViews(steps)[j], AllViews(steps)[k];
            && child.stepKey == parent.stepKey + "." + Decimal(i)
            && child.parentKey == Some(parent.stepKey) && child.depth == parent.depth + 1
  {
    hide NodeAt, Paths, Flatten, Suffix, Decimal, InOrder;
    OneViewPerStep(steps);
    hide BelongsAt;
    assert BelongsAt(steps, AllViews(steps)[j], p, ROOT, None, 0);
    assert BelongsAt(steps, AllViews(steps)[k], p + [i], ROOT, None, 0);
    FieldsAtPath(steps, AllViews(steps)[j], p);
    FieldsAtPath(steps, AllViews(steps)[k], p + [i]);
    SuffixOfChild(p, i);
    assert Parent(p + [i]) == p;
    assert ROOT + Suffix(p + [i]) == ROOT + Suffix(p) + "." + Decimal(i);
  }

  lemma {:induction false} ParentIsNode(steps: seq<Json>, p: Path)
    requires NodeAt(steps, p).Some? && |p| > 1
    ensures NodeAt(steps, Parent(p)).Some? && Before(Parent(p), p)
    decreases |p|
  {
    assert Parent(p)[0] == p[0];
    if |p| > 2 {
      ParentIsNode(Children(steps[p[0]]), p[1..]);
      assert Parent(p)[1..] == Parent(p[1..]);
    } else {
      assert Parent(p) == [p[0]] && Parent(p)[1..] == [];
    }
  }

  lemma {:induction false} BeforeIsAsymmetric(p: Path, q: Path)
    requires Before(p, q)
    ensures !Before(q, p)
    decreases |p|
  {
    if p != [] && p[0] == q[0] {
      BeforeIsAsymmetric(p[1..], q[1..]);
    }
  }

  /** A view has a parent key exactly when it is not a top step; the parent is listed earlier, one level up. */
  lemma ParentComesFirst(steps: seq<Json>, k: nat)
    requires k < |AllViews(steps)|
    ensures var views := AllViews(steps);
            && (views[k].parentKey.None? <==> views[k].depth == 0)
            && (views[k].parentKey.Some? ==>
                  exists j :: 0 <= j < k && views[j].stepKey == views[k].parentKey.value && views[j].depth + 1 == views[k].depth)
  {
    hide WorkflowStepShape, NodeAt, Suffix;
    var views, paths := AllViews(steps), Paths(steps, 0);
    OneViewPerStep(steps);
    assert BelongsAt(steps, views[k], paths[k], ROOT, None, 0);
    if views[k].parentKey.Some? {
      ParentIsNode(steps, paths[k]);
      var j :| 0 <= j < |paths| && paths[j] == Parent(paths[k]);
      if j >= k {
        BeforeIsAsymmetric(paths[j], paths[k]);
      }
      assert BelongsAt(steps, views[j], paths[j], ROOT, None, 0);
      assert views[j].stepKey == views[k].parentKey.value;
    }
  }
}
