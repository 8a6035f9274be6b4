/** The output organiser, `Croo.organize_output` (croo/croo.py:72-128).

    Four nested loops walk the output definition (task names, then each task's
    output variables) against the task graph (nodes, then each node's output
    files). Every node whose task name equals the definition's and every
    output file whose key equals the variable's name is a hit; each hit may
    place a copy of the file, add a row to the report's file table, and add a
    genome-browser track. The model returns the sequence of those effects.
    Copying (`CaperURI.copy`) and URL resolution (`CaperURI.get_url`) are
    parameters. */
module Organizer {
  import opened Wrappers
  import opened Paths
  import opened InlineExp

  /** What the definition says about one output variable: the three optional
      templates `path`, `table` and `ucsc_track`. */
  datatype OutSpec = OutSpec(path: Option<string>, table: Option<string>, ucscTrack: Option<string>)

  datatype OutVar = OutVar(name: string, spec: OutSpec)

  /** One entry of the output definition: a task name and its variables, in order. */
  datatype TaskDef = TaskDef(taskName: string, outVars: seq<OutVar>)

  /** One `(key, full_path)` pair of a node's `out_files`. */
  datatype OutFile = OutFile(key: string, fullPath: string)

  /** A node of the task graph: one (possibly scattered) call of a task. */
  datatype TaskNode = TaskNode(taskName: string, shardIdx: seq<int>, outFiles: seq<OutFile>)

  /** The effects of organising, in the order they happen. */
  datatype Event =
    | Place(src: string, dst: string)                          // copy (or link) `src` to `dst`
    | TableEntry(uri: string, url: Option<string>, text: string) // `add_to_file_table`
    | TrackEntry(trackUrl: string, text: string)               // `add_to_ucsc_track`
    | SaveReport                                               // `save_to_file`

  /** The organiser's settings and the storage operations it calls. `copy`
      returns the URI the file can be found at afterwards (with soft links,
      the original); `getUrl` returns a URL when the storage has one. */
  datatype Context = Context(
    outDir: string,
    softLink: bool,
    copy: (string, string, bool) -> string,
    getUrl: string -> Option<string>,
    fuel: nat)

  /** The effects performed, and the error that stopped the run, if any. */
  datatype Run = Run(events: seq<Event>, error: Option<InterpError>)

  // ---------------------------------------------------------------- matching

  /** A hit, by its four loop indices: definition task `t`, its variable `v`,
      graph node `n`, and that node's output file `f`. */
  datatype Pos = Pos(t: nat, v: nat, n: nat, f: nat)

  /** The file loop's test (croo/croo.py:93-95): `p` names a file whose key is `name`. */
  predicate FileHit(files: seq<OutFile>, name: string, p: Pos) {
    p.f < |files| && files[p.f].key == name
  }

  /** The node loop's test (croo/croo.py:87-89) and then the file loop's. */
  predicate NodeHit(nodes: seq<TaskNode>, taskName: string, name: string, p: Pos) {
    p.n < |nodes| && nodes[p.n].taskName == taskName && FileHit(nodes[p.n].outFiles, name, p)
  }

  /** `p` names a variable of `d` and passes the two tests for it. */
  predicate VarHit(d: TaskDef, nodes: seq<TaskNode>, p: Pos) {
    p.v < |d.outVars| && NodeHit(nodes, d.taskName, d.outVars[p.v].name, p)
  }

  /** The innermost loop body is reached for `p`: the node runs the defined
      task and the file's key is the variable's name (croo/croo.py:81-95). */
  predicate IsHit(defs: seq<TaskDef>, nodes: seq<TaskNode>, p: Pos) {
    p.t < |defs| && VarHit(defs[p.t], nodes, p)
  }

  /** Loop order: lexicographic on (task, variable, node, file). */
  predicate Before(p: Pos, q: Pos) {
    p.t < q.t || (p.t == q.t && (p.v < q.v || (p.v == q.v && (p.n < q.n || (p.n == q.n && p.f < q.f)))))
  }

  predicate Ordered(ps: seq<Pos>) {
    forall i :: 0 < i < |ps| ==> Before(ps[i - 1], ps[i])
  }

  lemma BeforeTransitive(p: Pos, q: Pos, r: Pos)
    requires Before(p, q) && Before(q, r)
    ensures Before(p, r)
  {
  }

  /** Two ordered runs, the first ending before the second begins, are one. */
  lemma OrderedAppend(a: seq<Pos>, b: seq<Pos>)
    requires Ordered(a) && Ordered(b)
    requires a != [] && b != [] ==> Before(a[|a| - 1], b[0])
    ensures Ordered(a + b)
  {
    forall i | 0 < i < |a + b| ensures Before((a + b)[i - 1], (a + b)[i]) {
      if i < |a| {
        assert (a + b)[i - 1] == a[i - 1] && (a + b)[i] == a[i];
      } else if i == |a| {
        assert (a + b)[i - 1] == a[|a| - 1] && (a + b)[i] == b[0];
      } else {
        assert (a + b)[i - 1] == b[i - 1 - |a|] && (a + b)[i] == b[i - |a|];
      }
    }
  }

  /** In an ordered sequence every element comes before every later one. */
  lemma {:induction false} OrderedPairs(ps: seq<Pos>, i: nat, j: nat)
    requires Ordered(ps) && i < j < |ps|
    ensures Before(ps[i], ps[j])
    decreases j - i
  {
    if i + 1 < j {
      OrderedPairs(ps, i, j - 1);
      BeforeTransitive(ps[i], ps[j - 1], ps[j]);
    }
  }

  /** The innermost loop (croo/croo.py:93-95): files from index `f` on whose
      key is the variable's name. */
  function FilePositions(t: nat, v: nat, name: string, n: nat, files: seq<OutFile>, f: nat): (r: seq<Pos>)
    requires f <= |files|
    ensures forall p :: p in r <==> p.t == t && p.v == v && p.n == n && f <= p.f && FileHit(files, name, p)
    ensures Ordered(r)
    decreases |files| - f
  {
    if f == |files| then []
    else
      var here := if files[f].key == name then [Pos(t, v, n, f)] else [];
      var rest := FilePositions(t, v, name, n, files, f + 1);
      OrderedAppend(here, rest);
      here + rest
  }

  /** The node loop (croo/croo.py:87-91): nodes from index `n` on that run
      the defined task, each contributing its matching files. */
  function NodePositions(t: nat, v: nat, name: string, taskName: string, nodes: seq<TaskNode>, n: nat)
    : (r: seq<Pos>)
    requires n <= |nodes|
    ensures forall p :: p in r <==> p.t == t && p.v == v && n <= p.n && NodeHit(nodes, taskName, name, p)
    ensures Ordered(r)
    decreases |nodes| - n
  {
    if n == |nodes| then []
    else
      var here := if nodes[n].taskName == taskName then FilePositions(t, v, name, n, nodes[n].outFiles, 0) else [];
      var rest := NodePositions(t, v, name, taskName, nodes, n + 1);
      OrderedAppend(here, rest);
      here + rest
  }

  /** The variable loop (croo/croo.py:82-85): variables of one defined task
      from index `v` on. */
  function VarPositions(t: nat, d: TaskDef, nodes: seq<TaskNode>, v: nat): (r: seq<Pos>)
    requires v <= |d.outVars|
    ensures forall p :: p in r <==> p.t == t && v <= p.v && VarHit(d, nodes, p)
    ensures Ordered(r)
    decreases |d.outVars| - v
  {
    if v == |d.outVars| then []
    else
      var here := NodePositions(t, v, d.outVars[v].name, d.taskName, nodes, 0);
      var rest := VarPositions(t, d, nodes, v + 1);
      OrderedAppend(here, rest);
      here + rest
  }

  /** The task loop (croo/croo.py:81): defined tasks from index `t` on. */
  function TaskPositions(defs: seq<TaskDef>, nodes: seq<TaskNode>, t: nat): (r: seq<Pos>)
    requires t <= |defs|
    ensures forall p :: p in r <==> t <= p.t && IsHit(defs, nodes, p)
    ensures Ordered(r)
    decreases |defs| - t
  {
    if t == |defs| then []
    else
      var here := VarPositions(t, defs[t], nodes, 0);
      var rest := TaskPositions(defs, nodes, t + 1);
      OrderedAppend(here, rest);
      here + rest
  }

  /** Every hit of the four loops, in the order the loops reach them: exactly
      the positions that pass both equality tests, each once (so two files
      with the same key are two hits), sorted by (task, variable, node, file). */
  function Positions(defs: seq<TaskDef>, nodes: seq<TaskNode>): (ps: seq<Pos>)
    ensures forall p :: p in ps <==> IsHit(defs, nodes, p)
    ensures Ordered(ps)
  {
    TaskPositions(defs, nodes, 0)
  }

  /** An ordered sequence is determined by its elements. */
  lemma {:induction false} OrderedUnique(a: seq<Pos>, b: seq<Pos>)
    requires Ordered(a) && Ordered(b)
    requires forall p :: p in a <==> p in b
    ensures a == b
    decreases |a|
  {
    if a != [] && b != [] {
      assert a[0] in b && b[0] in a;
      if a[0] != b[0] {
        FirstIsLeast(a, b[0]);
        FirstIsLeast(b, a[0]);
        assert false;
      }
      forall p ensures p in a[1..] <==> p in b[1..] {
        TailMembers(a, p);
        TailMembers(b, p);
      }
      OrderedTail(a);
      OrderedTail(b);
      OrderedUnique(a[1..], b[1..]);
      assert a == [a[0]] + a[1..] && b == [b[0]] + b[1..];
    } else {
      HeadsAreMembers(a, b);
    }
  }

  lemma HeadsAreMembers(a: seq<Pos>, b: seq<Pos>)
    ensures a != [] ==> a[0] in a
    ensures b != [] ==> b[0] in b
  {
  }

  lemma FirstIsLeast(a: seq<Pos>, p: Pos)
    requires Ordered(a) && p in a && p != a[0]
    ensures Before(a[0], p)
  {
    var j :| 0 <= j < |a| && a[j] == p;
    OrderedPairs(a, 0, j);
  }

  lemma OrderedTail(a: seq<Pos>)
    requires Ordered(a) && a != []
    ensures Ordered(a[1..])
  {
    forall i | 0 < i < |a| - 1 ensures Before(a[1..][i - 1], a[1..][i]) {
      assert a[1..][i - 1] == a[i] && a[1..][i] == a[i + 1];
    }
  }

  /** Past its first element, an ordered sequence holds every other element. */
  lemma TailMembers(a: seq<Pos>, p: Pos)
    requires Ordered(a) && a != []
    ensures p in a[1..] <==> p in a && p != a[0]
  {
    if p in a && p != a[0] {
      var j :| 0 <= j < |a| && a[j] == p;
      assert a[1..][j - 1] == p;
    }
    if p in a[1..] {
      var j :| 0 <= j < |a| - 1 && a[1..][j] == p;
      OrderedPairs(a, 0, j + 1);
    }
  }

  // ------------------------------------------------------------ one hit

  /** The data the loop body uses: the variable's templates, the file's full
      path and the node's scatter indices. */
  datatype Item = Item(spec: OutSpec, fullPath: string, shardIdx: seq<int>)

  function Work(defs: seq<TaskDef>, nodes: seq<TaskNode>, p: Pos): Item
    requires IsHit(defs, nodes, p)
  {
    Item(defs[p.t].outVars[p.v].spec, nodes[p.n].outFiles[p.f].fullPath, nodes[p.n].shardIdx)
  }

  function ItemsOf(defs: seq<TaskDef>, nodes: seq<TaskNode>, ps: seq<Pos>): (items: seq<Item>)
    requires forall i :: 0 <= i < |ps| ==> IsHit(defs, nodes, ps[i])
    ensures |items| == |ps|
    ensures forall i :: 0 <= i < |ps| ==> items[i] == Work(defs, nodes, ps[i])
  {
    if ps == [] then [] else [Work(defs, nodes, ps[0])] + ItemsOf(defs, nodes, ps[1..])
  }

  /** The work items of all hits, in loop order. */
  function Matches(defs: seq<TaskDef>, nodes: seq<TaskNode>): seq<Item>
  {
    var ps := Positions(defs, nodes);
    assert forall i :: 0 <= i < |ps| ==> ps[i] in ps;
    ItemsOf(defs, nodes, ps)
  }

  /** A template interpreted for a hit: always against the file's original
      full path and the node's scatter indices (croo/croo.py:98-99, 115-116,
      122-123), never against where the file was placed. */
  function Expand(tpl: string, it: Item, fuel: nat): Result<string, InterpError>
  {
    InterpretInlineExp(tpl, it.fullPath, it.shardIdx, fuel)
  }

  /** An absent template yields no text; a present one its interpretation. */
  function ExpandOpt(tpl: Option<string>, it: Item, fuel: nat): (r: Result<Option<string>, InterpError>)
    ensures tpl.None? ==> r == Success(None)
    ensures tpl.Some? ==> (r.Success? <==> Expand(tpl.value, it, fuel).Success?)
    ensures tpl.Some? && r.Success? ==> r.value == Some(Expand(tpl.value, it, fuel).value)
    ensures tpl.Some? && r.Failure? ==> r.error == Expand(tpl.value, it, fuel).error
  {
    match tpl
    case None => Success(None)
    case Some(s) =>
      match Expand(s, it, fuel)
      case Failure(e) => Failure(e)
      case Success(text) => Success(Some(text))
  }

  /** What each of a hit's three templates interprets to. The source
      interprets `ucsc_track` only when it is used; interpretation has no
      effects, so computing its outcome up front changes nothing. */
  datatype Expansion = Expansion(
    path: Result<Option<string>, InterpError>,
    table: Result<Option<string>, InterpError>,
    track: Result<Option<string>, InterpError>)

  function ExpandAll(it: Item, fuel: nat): Expansion
  {
    Expansion(ExpandOpt(it.spec.path, it, fuel), ExpandOpt(it.spec.table, it, fuel),
      ExpandOpt(it.spec.ucscTrack, it, fuel))
  }

  /** The copy a hit requests, if any, and the URI the file is found at afterwards. */
  datatype Placed = Placed(place: Option<Event>, target: string)

  /** croo/croo.py:97-109: with no `path` the file stays where it is and
      nothing is copied; with one, it is copied to `out_dir` joined with the
      interpreted path, and the target becomes what the copy returns. */
  function Placement(ctx: Context, fullPath: string, path: Option<string>): (r: Placed)
    ensures path.None? ==> r.place.None? && r.target == fullPath
    ensures path.Some? ==> r.place == Some(Place(fullPath, Join(ctx.outDir, path.value)))
    ensures path.Some? ==> r.target == ctx.copy(fullPath, Join(ctx.outDir, path.value), ctx.softLink)
  {
    match path
    case None => Placed(None, fullPath)
    case Some(p) =>
      var dst := Join(ctx.outDir, p);
      Placed(Some(Place(fullPath, dst)), ctx.copy(fullPath, dst, ctx.softLink))
  }

  /** Where the file is found after placement, once `path` has interpreted. */
  function Target(ctx: Context, fullPath: string, x: Expansion): string
    requires x.path.Success?
  {
    Placement(ctx, fullPath, x.path.value).target
  }

  /** What one hit does, by kind, and the error that stopped it. */
  datatype Outcome = Outcome(place: Option<Event>, table: Option<Event>, track: Option<Event>, error: Option<InterpError>)

  /** The body of the innermost loop (croo/croo.py:97-125) for a file at
      `fullPath` whose templates interpret to `x`. */
  function Decide(ctx: Context, fullPath: string, x: Expansion): (o: Outcome)
    // the templates are used in order and the first that fails stops the hit
    ensures x.path.Failure? ==> o == Outcome(None, None, None, Some(x.path.error))
    ensures x.path.Success? && x.table.Failure? ==> o.error == Some(x.table.error) && o.track.None?
    ensures x.path.Success? && x.table.Success? && x.track.Success? ==> o.error.None?
    ensures o.error.Some? ==> Failure(o.error.value) in [x.path, x.table, x.track]
    // a copy is requested iff `path` is present and interprets, whatever follows
    ensures o.place.Some? <==> x.path.Success? && x.path.value.Some?
    ensures o.place.Some? ==> o.place.value == Place(fullPath, Join(ctx.outDir, x.path.value.value))
    // a table row iff `table` is present, even when the target has no URL
    ensures o.error.None? ==> x.path.Success? && x.table.Success?
    ensures o.error.None? ==> (o.table.Some? <==> x.table.value.Some?)
    ensures o.table.Some? ==>
      (x.path.Success? && x.table.Success? && x.table.value.Some?
       && o.table.value == TableEntry(Target(ctx, fullPath, x), ctx.getUrl(Target(ctx, fullPath, x)), x.table.value.value))
    // a failing `ucsc_track` template raises exactly when the target has a URL
    ensures x.path.Success? && x.table.Success? && x.track.Failure? ==>
      (o.error.Some? <==> ctx.getUrl(Target(ctx, fullPath, x)).Some?) &&
      (o.error.Some? ==> o.error == Some(x.track.error))
    // a track iff `ucsc_track` is present and the target has a URL
    ensures o.error.None? ==>
      (o.track.Some? <==> x.track.Success? && x.track.value.Some? && ctx.getUrl(Target(ctx, fullPath, x)).Some?)
    ensures o.track.Some? ==>
      (x.path.Success? && x.track.Success? && x.track.value.Some?
       && ctx.getUrl(Target(ctx, fullPath, x)).Some?
       && o.track.value == TrackEntry(ctx.getUrl(Target(ctx, fullPath, x)).value, x.track.value.value))
  {
    match x.path
    case Failure(e) => Outcome(None, None, None, Some(e))
    case Success(path) =>
      var pl := Placement(ctx, fullPath, path);
      var url := ctx.getUrl(pl.target);
      match x.table
      case Failure(e) => Outcome(pl.place, None, None, Some(e))
      case Success(table) =>
        var row := if table.Some? then Some(TableEntry(pl.target, url, table.value)) else None;
        match url
        case None => Outcome(pl.place, row, None, None)
        case Some(u) =>
          match x.track
          case Failure(e) => Outcome(pl.place, row, None, Some(e))
          case Success(track) =>
            Outcome(pl.place, row, if track.Some? then Some(TrackEntry(u, track.value)) else None, None)
  }

  /** Position of an event kind within one hit: placement, then table, then track. */
  function Rank(e: Event): nat
  {
    match e
    case Place(_, _) => 0
    case TableEntry(_, _, _) => 1
    case TrackEntry(_, _) => 2
    case SaveReport => 3
  }

  function Present(e: Option<Event>): seq<Event>
  {
    if e.Some? then [e.value] else []
  }

  /** The effects of an outcome in the order the source performs them. */
  function Effects(o: Outcome): (evs: seq<Event>)
    requires o.place.Some? ==> o.place.value.Place?
    requires o.table.Some? ==> o.table.value.TableEntry?
    requires o.track.Some? ==> o.track.value.TrackEntry?
    ensures forall e :: e in evs <==> Some(e) == o.place || Some(e) == o.table || Some(e) == o.track
    ensures forall i, j :: 0 <= i < j < |evs| ==> Rank(evs[i]) < Rank(evs[j])
  {
    Present(o.place) + Present(o.table) + Present(o.track)
  }

  /** One hit: its templates interpreted for its file, then acted upon. */
  function Handle(ctx: Context, it: Item): (r: Run)
    ensures forall e :: e in r.events ==> e != SaveReport
  {
    var o := Decide(ctx, it.fullPath, ExpandAll(it, ctx.fuel));
    Run(Effects(o), o.error)
  }

  // ------------------------------------------------------------ the run

  /** All events of a sequence of runs, one after another. */
  function Concat(runs: seq<Run>): seq<Event>
  {
    if runs == [] then [] else runs[0].events + Concat(runs[1..])
  }

  /** Performs runs in order until one fails, as the source's loops do when
      an interpretation raises: effects up to and including the failing hit's
      stay performed, and nothing after it happens. */
  function Sequence(runs: seq<Run>): (r: Run)
    ensures r.error.None? <==> forall k :: 0 <= k < |runs| ==> runs[k].error.None?
    ensures r.error.None? ==> r.events == Concat(runs)
    ensures r.error.Some? ==> exists k: nat :: StoppedAt(runs, k, r)
  {
    if runs == [] then Run([], None)
    else if runs[0].error.Some? then
      assert runs[..0] == [];
      assert StoppedAt(runs, 0, runs[0]);
      runs[0]
    else
      var rest := Sequence(runs[1..]);
      if rest.error.Some? then
        FailureShift(runs, rest);
        Run(runs[0].events + rest.events, rest.error)
      else
        Run(runs[0].events + rest.events, rest.error)
  }

  /** Run `k` is the first to fail. */
  predicate FirstFailure(runs: seq<Run>, k: nat) {
    k < |runs| && runs[k].error.Some? && forall j :: 0 <= j < k ==> runs[j].error.None?
  }

  /** `r` is what performing `runs` leaves when run `k` is the first to fail:
      everything up to and including it, and its error. */
  predicate StoppedAt(runs: seq<Run>, k: nat, r: Run) {
    FirstFailure(runs, k) && r.error == runs[k].error && r.events == Concat(runs[..k]) + runs[k].events
  }

  /** A failure found past a successful first run is found in the whole
      sequence one position further on. */
  lemma FailureShift(runs: seq<Run>, rest: Run)
    requires runs != [] && runs[0].error.None?
    requires exists k: nat :: StoppedAt(runs[1..], k, rest)
    ensures exists k: nat :: StoppedAt(runs, k, Run(runs[0].events + rest.events, rest.error))
  {
    var k: nat :| StoppedAt(runs[1..], k, rest);
    assert runs[..k + 1][1..] == runs[1..][..k];
    assert StoppedAt(runs, k + 1, Run(runs[0].events + rest.events, rest.error));
  }

  /** No run of a single hit saves the report. */
  predicate NoSave(runs: seq<Run>) {
    forall k :: 0 <= k < |runs| ==> SaveReport !in runs[k].events
  }

  lemma {:induction false} ConcatNoSave(runs: seq<Run>)
    requires NoSave(runs)
    ensures SaveReport !in Concat(runs)
  {
    if runs != [] {
      assert SaveReport !in runs[0].events;
      ConcatNoSave(runs[1..]);
    }
  }

  /** The runs of the hits, one per hit, in the same order. */
  function HitRuns(ctx: Context, items: seq<Item>): (runs: seq<Run>)
    ensures |runs| == |items|
    ensures forall k :: 0 <= k < |items| ==> runs[k] == Handle(ctx, items[k])
    ensures NoSave(runs)
  {
    seq(|items|, k requires 0 <= k < |items| => Handle(ctx, items[k]))
  }

  /** `Croo.organize_output` (croo/croo.py:72-128): every hit in loop order,
      then the report is saved, unless an interpretation failed first. */
  function Organize(ctx: Context, defs: seq<TaskDef>, nodes: seq<TaskNode>): (r: Run)
    ensures SaveReport in r.events <==> r.error.None?
    ensures r.error.None? ==> r.events == Concat(HitRuns(ctx, Matches(defs, nodes))) + [SaveReport]
    ensures r.error.Some? ==> exists k: nat :: StoppedAt(HitRuns(ctx, Matches(defs, nodes)), k, r)
  {
    var runs := HitRuns(ctx, Matches(defs, nodes));
    var r := Sequence(runs);
    if r.error.None? then
      ConcatNoSave(runs);
      Run(r.events + [SaveReport], None)
    else
      StoppedNoSave(runs, r);
      r
  }

  lemma StoppedNoSave(runs: seq<Run>, r: Run)
    requires NoSave(runs) && exists k: nat :: StoppedAt(runs, k, r)
    ensures SaveReport !in r.events
  {
    var k: nat :| StoppedAt(runs, k, r);
    assert NoSave(runs[..k]) by {
      forall j | 0 <= j < k ensures runs[..k][j] == runs[j] {}
    }
    ConcatNoSave(runs[..k]);
    assert SaveReport !in runs[k].events;
  }

  // ------------------------------------------------------------ properties

  /** A definition and a graph with no hit produce no effect and no error;
      only the (empty) report is saved. */
  lemma NoHitsOnlySave(ctx: Context, defs: seq<TaskDef>, nodes: seq<TaskNode>)
    requires forall p: Pos :: !IsHit(defs, nodes, p)
    ensures Organize(ctx, defs, nodes) == Run([SaveReport], None)
  {
    var ps := Positions(defs, nodes);
    HeadsAreMembers(ps, ps);
    assert Matches(defs, nodes) == [];
    assert HitRuns(ctx, []) == [];
  }

  /** Defining outputs for a task the graph never ran changes nothing: no
      node passes the task-name test, so the definition adds no hit. */
  lemma UnmatchedTaskIsSilent(ctx: Context, defs: seq<TaskDef>, d: TaskDef, nodes: seq<TaskNode>)
    requires forall n :: 0 <= n < |nodes| ==> nodes[n].taskName != d.taskName
    ensures Organize(ctx, defs + [d], nodes) == Organize(ctx, defs, nodes)
  {
    var defs' := defs + [d];
    forall p: Pos ensures IsHit(defs', nodes, p) <==> IsHit(defs, nodes, p) {
      if p.t < |defs| {
        assert defs'[p.t] == defs[p.t];
      }
    }
    var ps := Positions(defs, nodes);
    OrderedUnique(Positions(defs', nodes), ps);
    SameItems(defs, d, nodes, ps);
  }

  lemma SameItems(defs: seq<TaskDef>, d: TaskDef, nodes: seq<TaskNode>, ps: seq<Pos>)
    requires forall i :: 0 <= i < |ps| ==> IsHit(defs, nodes, ps[i])
    ensures forall i :: 0 <= i < |ps| ==> IsHit(defs + [d], nodes, ps[i])
    ensures ItemsOf(defs + [d], nodes, ps) == ItemsOf(defs, nodes, ps)
  {
    var defs' := defs + [d];
    forall i | 0 <= i < |ps| ensures IsHit(defs', nodes, ps[i]) && Work(defs', nodes, ps[i]) == Work(defs, nodes, ps[i]) {
      assert defs'[ps[i].t] == defs[ps[i].t];
    }
  }

  /** A hit whose `path` is a '$'-free directory prefix followed by
      `${basename}` is copied under `out_dir` with its own base name. */
  lemma BasenamePathKeepsName(ctx: Context, it: Item, dir: string)
    requires it.spec.path == Some(dir + "${" + "basename" + "}")
    requires '$' !in dir && (dir == [] || dir[|dir| - 1] == '/')
    requires '$' !in it.fullPath && |it.shardIdx| > 0 && ctx.fuel > 0
    ensures Decide(ctx, it.fullPath, ExpandAll(it, ctx.fuel)).place ==
      Some(Place(it.fullPath, Join(ctx.outDir, dir + Basename(it.fullPath))))
    ensures Basename(Join(ctx.outDir, dir + Basename(it.fullPath))) == Basename(it.fullPath)
  {
    BasenamePathExpands(it, dir, ctx.fuel);
    DecidePlace(ctx, it.fullPath, ExpandAll(it, ctx.fuel), dir + Basename(it.fullPath));
    UnderDirectory(ctx.outDir, dir, Basename(it.fullPath));
  }

  /** An interpreted `path` is where the copy goes. */
  lemma DecidePlace(ctx: Context, fullPath: string, x: Expansion, t: string)
    requires x.path == Success(Some(t))
    ensures Decide(ctx, fullPath, x).place == Some(Place(fullPath, Join(ctx.outDir, t)))
  {
  }

  lemma BasenamePathExpands(it: Item, dir: string, fuel: nat)
    requires it.spec.path == Some(dir + "${" + "basename" + "}")
    requires '$' !in dir && '$' !in it.fullPath && |it.shardIdx| > 0 && fuel > 0
    ensures ExpandAll(it, fuel).path == Success(Some(dir + Basename(it.fullPath)))
  {
    BasenameTemplateRendering(dir, it.fullPath, it.shardIdx, fuel);
  }

  /** A slash-free name joined under a directory prefix stays the base name. */
  lemma UnderDirectory(outDir: string, dir: string, b: string)
    requires '/' !in b && (dir == [] || dir[|dir| - 1] == '/')
    ensures Basename(Join(outDir, dir + b)) == b
  {
    BasenameUnderDir(dir, b);
    BasenameOfJoin(outDir, dir + b);
  }

  lemma BasenameUnderDir(dir: string, b: string)
    requires '/' !in b && (dir == [] || dir[|dir| - 1] == '/')
    ensures Basename(dir + b) == b
  {
    if dir == [] {
      assert dir + b == b;
    } else {
      var head := dir[..|dir| - 1];
      assert dir + b == head + "/" + b;
      BasenameOfSplit(head, b);
    }
  }
}
