/** Saving and deleting paths side by side. The path store is updated outside the lock, and the
    routes are updated one target at a time, each under the lock. */
module RouteRace {
  import opened Basics
  import opened RouteTable

  /** A running SavePath or Delete, and the next item of its path to visit. */
  datatype Job = Job(saving: bool, items: Items, k: nat)

  datatype State = State(tab: Tab, jobs: seq<Job>)

  datatype Action =
    | Store(items: Items, now: nat)  // SavePath puts the path into the store
    | Remove(items: Items)           // Delete takes it out, on behalf of Gc or a caller
    | Visit(j: nat)                  // a running job updates the routes of its next target

  predicate Running(j: Job) {
    j.k + 1 < |j.items|
  }

  predicate Enabled(s: State, a: Action) {
    match a
    case Store(items, _) => |items| >= 2
    case Remove(_) => true
    case Visit(j) => j < |s.jobs| && Running(s.jobs[j])
  }

  function RouteFor(items: Items): Route
    requires items != []
  {
    Route(Last(items), items)
  }

  /** What one visit does to the routes. */
  function Visited(alpha: nat, routes: map<Addr, seq<Route>>, j: Job): map<Addr, seq<Route>>
    requires alpha >= 1 && Running(j)
  {
    var a := j.items[j.k];
    if j.saving then routes[a := PushRoute(alpha, ListOf(routes, a), RouteFor(j.items))]
    else if a in routes then routes[a := Without(routes[a], j.items)]
    else routes
  }

  function Apply(alpha: nat, s: State, a: Action): State
    requires alpha >= 1 && Enabled(s, a)
  {
    match a
    case Store(items, now) =>
      State(s.tab.(paths := s.tab.paths[items := Path(items, now, now)]), s.jobs + [Job(true, items, 0)])
    case Remove(items) => State(s.tab.(paths := s.tab.paths - {items}), s.jobs + [Job(false, items, 0)])
    case Visit(j) =>
      var job := s.jobs[j];
      State(s.tab.(routes := Visited(alpha, s.tab.routes, job)), s.jobs[j := job.(k := job.k + 1)])
  }

  /** Undisturbed, the visits are the loops of SavePath and Delete. */
  lemma VisitIsTheLoop(alpha: nat, routes: map<Addr, seq<Route>>, items: Items, k: nat)
    requires alpha >= 1 && k + 1 < |items|
    ensures var r := RouteFor(items);
            Visited(alpha, EnterRoutes(alpha, routes, items, r, k), Job(true, items, k))
            == EnterRoutes(alpha, routes, items, r, k + 1)
    ensures Visited(alpha, DropRoutes(routes, items, items, k), Job(false, items, k))
            == DropRoutes(routes, items, items, k + 1)
  {
    var before, a := DropRoutes(routes, items, items, k), items[k];
    if a in before && |Without(before[a], items)| == |before[a]| { assert before[a := before[a]] == before; }
  }

  // ---------------------------------------------------------------- what always survives

  /** A route as it should be, but for its path being stored. */
  predicate RouteShape(target: Addr, r: Route) {
    |r.key| >= 2 && r.neighbor == Last(r.key) && target in Init(r.key)
  }

  ghost predicate Shape(s: State, alpha: nat) {
    && (forall k :: k in s.tab.paths ==> s.tab.paths[k].items == k && |k| >= 2)
    && (forall a :: a in s.tab.routes ==> |s.tab.routes[a]| <= alpha && NoDup(s.tab.routes[a]))
    && (forall a, r :: a in s.tab.routes && r in s.tab.routes[a] ==> RouteShape(a, r))
  }

  /** In every interleaving lists stay short and free of repeats, and each route ends in its
      neighbour and runs through its target. */
  lemma ShapeKept(s: State, alpha: nat, a: Action)
    requires alpha >= 1 && Shape(s, alpha) && Enabled(s, a)
    ensures Shape(Apply(alpha, s, a), alpha)
  {
    if a.Visit? {
      var j := s.jobs[a.j];
      assert Init(j.items)[j.k] == j.items[j.k];
    }
  }

  // ---------------------------------------------------------------- routes without a path

  /** A running delete of the path has the target still ahead of it. */
  ghost predicate Doomed(jobs: seq<Job>, items: Items, target: Addr) {
    exists j :: 0 <= j < |jobs| && Ahead(jobs[j], items, target)
  }

  predicate Ahead(j: Job, items: Items, target: Addr) {
    !j.saving && j.items == items && Running(j) && target in Init(items)[j.k..]
  }

  /** The route's path is stored, or the route is about to go. */
  ghost predicate Settled(s: State, target: Addr, items: Items) {
    items in s.tab.paths || Doomed(s.jobs, items, target)
  }

  ghost predicate AllSettled(s: State) {
    forall a, r :: a in s.tab.routes && r in s.tab.routes[a] ==> Settled(s, a, r.key)
  }

  /** With nothing running that is the promise of the table. */
  lemma SettledAtRest(s: State, alpha: nat)
    requires Shape(s, alpha) && AllSettled(s) && forall j :: 0 <= j < |s.jobs| ==> !Running(s.jobs[j])
    ensures TabInv(s.tab, alpha)
  {
  }

  /** A save enters a route whose path is gone and is not about to be dropped again. */
  ghost predicate Dangles(s: State, a: Action)
    requires Enabled(s, a)
  {
    a.Visit? && s.jobs[a.j].saving && !Settled(s, s.jobs[a.j].items[s.jobs[a.j].k], s.jobs[a.j].items)
  }

  lemma DoomedStays(jobs: seq<Job>, jobs': seq<Job>, items: Items, target: Addr)
    requires Doomed(jobs, items, target) && |jobs| <= |jobs'|
    requires forall j :: 0 <= j < |jobs| && Ahead(jobs[j], items, target) ==> Ahead(jobs'[j], items, target)
    ensures Doomed(jobs', items, target)
  {
    var j :| 0 <= j < |jobs| && Ahead(jobs[j], items, target);
    assert Ahead(jobs'[j], items, target);
  }

  lemma StoreSettles(s: State, alpha: nat, a: Action)
    requires alpha >= 1 && Shape(s, alpha) && AllSettled(s) && Enabled(s, a) && (a.Store? || a.Remove?)
    ensures AllSettled(Apply(alpha, s, a))
  {
    var s' := Apply(alpha, s, a);
    forall t, r | t in s'.tab.routes && r in s'.tab.routes[t] ensures Settled(s', t, r.key) {
      assert Settled(s, t, r.key) && RouteShape(t, r);
      if Doomed(s.jobs, r.key, t) {
        DoomedStays(s.jobs, s'.jobs, r.key, t);
      } else if a.Remove? && a.items == r.key {
        assert Init(r.key)[0..] == Init(r.key);
        assert Ahead(s'.jobs[|s.jobs|], r.key, t);
      }
    }
  }

  /** A visit of a delete moves on from its target, where it leaves no route to its path. */
  lemma DeleteVisitSettles(s: State, alpha: nat, j: nat)
    requires alpha >= 1 && Shape(s, alpha) && AllSettled(s) && Enabled(s, Visit(j)) && !s.jobs[j].saving
    ensures AllSettled(Apply(alpha, s, Visit(j)))
  {
    var s', job := Apply(alpha, s, Visit(j)), s.jobs[j];
    forall t, r | t in s'.tab.routes && r in s'.tab.routes[t] ensures Settled(s', t, r.key) {
      assert t in s.tab.routes && r in s.tab.routes[t];
      assert Settled(s, t, r.key);
      if Doomed(s.jobs, r.key, t) {
        if job.items == r.key { AheadMoves(job, t); }
        DoomedStays(s.jobs, s'.jobs, r.key, t);
      }
    }
  }

  lemma AheadMoves(job: Job, target: Addr)
    requires Running(job) && target != job.items[job.k]
    ensures Ahead(job, job.items, target) ==> Ahead(job.(k := job.k + 1), job.items, target)
  {
    var rest := Init(job.items)[job.k..];
    assert rest == [job.items[job.k]] + Init(job.items)[job.k + 1..];
  }

  /** A visit of a save keeps everything settled exactly when it does not dangle. */
  lemma SaveVisitSettlesIff(s: State, alpha: nat, j: nat)
    requires alpha >= 1 && Shape(s, alpha) && AllSettled(s) && Enabled(s, Visit(j)) && s.jobs[j].saving
    ensures AllSettled(Apply(alpha, s, Visit(j))) <==> !Dangles(s, Visit(j))
  {
    var s', job := Apply(alpha, s, Visit(j)), s.jobs[j];
    var a, route := job.items[job.k], RouteFor(job.items);
    assert route in s'.tab.routes[a];
    forall t, items ensures Settled(s', t, items) <==> Settled(s, t, items) {
      if Doomed(s.jobs, items, t) { DoomedStays(s.jobs, s'.jobs, items, t); }
      if Doomed(s'.jobs, items, t) { DoomedStays(s'.jobs, s.jobs, items, t); }
    }
    forall t, r | t in s'.tab.routes && r in s'.tab.routes[t] && !(t == a && r == route) ensures Settled(s', t, r.key) {
      assert t in s.tab.routes && r in s.tab.routes[t];
    }
  }

  lemma StepSettlesIff(s: State, alpha: nat, a: Action)
    requires alpha >= 1 && Shape(s, alpha) && AllSettled(s) && Enabled(s, a)
    ensures AllSettled(Apply(alpha, s, a)) <==> !Dangles(s, a)
  {
    if a.Visit? {
      if s.jobs[a.j].saving { SaveVisitSettlesIff(s, alpha, a.j); } else { DeleteVisitSettles(s, alpha, a.j); }
    } else {
      StoreSettles(s, alpha, a);
    }
  }

  // ---------------------------------------------------------------- every run

  predicate ValidRun(alpha: nat, s: State, acts: seq<Action>)
    requires alpha >= 1
    decreases |acts|
  {
    acts == [] || (Enabled(s, acts[0]) && ValidRun(alpha, Apply(alpha, s, acts[0]), acts[1..]))
  }

  function Exec(alpha: nat, s: State, acts: seq<Action>): State
    requires alpha >= 1 && ValidRun(alpha, s, acts)
    decreases |acts|
  {
    if acts == [] then s else Exec(alpha, Apply(alpha, s, acts[0]), acts[1..])
  }

  /** Every state of the run is settled. */
  ghost predicate SettledThroughout(alpha: nat, s: State, acts: seq<Action>)
    requires alpha >= 1 && ValidRun(alpha, s, acts)
    decreases |acts|
  {
    AllSettled(s) && (acts != [] ==> SettledThroughout(alpha, Apply(alpha, s, acts[0]), acts[1..]))
  }

  /** No save of the run enters a route after its path was taken away. */
  ghost predicate NeverDangles(alpha: nat, s: State, acts: seq<Action>)
    requires alpha >= 1 && ValidRun(alpha, s, acts)
    decreases |acts|
  {
    acts != [] ==> !Dangles(s, acts[0]) && NeverDangles(alpha, Apply(alpha, s, acts[0]), acts[1..])
  }

  /** Whatever overlaps, the shape survives; and every route resolves or is about to go, all
      along a run, if and only if no save enters a route after its path was taken away. */
  lemma {:induction false} RunSettledIff(alpha: nat, s: State, acts: seq<Action>)
    requires alpha >= 1 && ValidRun(alpha, s, acts) && Shape(s, alpha) && AllSettled(s)
    ensures Shape(Exec(alpha, s, acts), alpha)
    ensures SettledThroughout(alpha, s, acts) <==> NeverDangles(alpha, s, acts)
    decreases |acts|
  {
    if acts != [] {
      var t := Apply(alpha, s, acts[0]);
      ShapeKept(s, alpha, acts[0]);
      StepSettlesIff(s, alpha, acts[0]);
      if AllSettled(t) {
        RunSettledIff(alpha, t, acts[1..]);
      } else {
        ShapeSurvives(alpha, t, acts[1..]);
      }
    }
  }

  lemma {:induction false} ShapeSurvives(alpha: nat, s: State, acts: seq<Action>)
    requires alpha >= 1 && ValidRun(alpha, s, acts) && Shape(s, alpha)
    ensures Shape(Exec(alpha, s, acts), alpha)
    decreases |acts|
  {
    if acts != [] {
      ShapeKept(s, alpha, acts[0]);
      ShapeSurvives(alpha, Apply(alpha, s, acts[0]), acts[1..]);
    }
  }

  /** A list of states, each the next of the one before, is a run. */
  lemma {:induction false} Trace(alpha: nat, states: seq<State>, acts: seq<Action>)
    requires alpha >= 1 && |states| == |acts| + 1
    requires forall i :: 0 <= i < |acts| ==>
      Enabled(states[i], acts[i]) && Apply(alpha, states[i], acts[i]) == states[i + 1]
    ensures ValidRun(alpha, states[0], acts) && Exec(alpha, states[0], acts) == Last(states)
    decreases |acts|
  {
    if acts != [] { Trace(alpha, states[1..], acts[1..]); }
  }

  /** A table with one path, and its only save over. */
  function Saved(a: Addr, b: Addr, t: nat): State {
    State(Tab(map[[a, b] := Path([a, b], t, t)], map[a := [Route(b, [a, b])]]), [Job(true, [a, b], 1)])
  }

  lemma SavedOnce(alpha: nat, a: Addr, b: Addr, t: nat)
    requires alpha >= 1
    ensures var s0, acts := State(Tab(map[], map[]), []), [Store([a, b], t), Visit(0)];
            ValidRun(alpha, s0, acts) && Exec(alpha, s0, acts) == Saved(a, b, t)
    ensures TabInv(Saved(a, b, t).tab, alpha)
  {
    var s0 := State(Tab(map[], map[]), []);
    Trace(alpha, [s0, Apply(alpha, s0, Store([a, b], t)), Saved(a, b, t)], [Store([a, b], t), Visit(0)]);
  }

  /** The path has been saved and expires. A collector judges that copy, the path is saved
      again, and the collector removes it before the new save enters its route: at rest the
      target has a route without a path. */
  lemma RouteWithoutPath(alpha: nat, a: Addr, b: Addr, before: nat, now: nat)
    requires alpha >= 1
    ensures var s, acts := Saved(a, b, before), [Store([a, b], now), Remove([a, b]), Visit(2), Visit(1)];
            && ValidRun(alpha, s, acts)
            && var t := Exec(alpha, s, acts);
               t.tab == Tab(map[], map[a := [Route(b, [a, b])]]) && forall j :: j in t.jobs ==> !Running(j)
  {
    var p, r := [a, b], [Route(b, [a, b])];
    var done, save, drop := Job(true, p, 1), Job(true, p, 0), Job(false, p, 0);
    var s := Saved(a, b, before);
    var s1 := State(Tab(map[p := Path(p, now, now)], map[a := r]), [done, save]);
    var s2 := State(Tab(map[], map[a := r]), [done, save, drop]);
    var s3 := State(Tab(map[], map[a := []]), [done, save, drop.(k := 1)]);
    var s4 := State(Tab(map[], map[a := r]), [done, save.(k := 1), drop.(k := 1)]);
    assert Apply(alpha, s, Store(p, now)) == s1;
    assert Apply(alpha, s1, Remove(p)) == s2;
    assert Apply(alpha, s2, Visit(2)) == s3;
    assert Apply(alpha, s3, Visit(1)) == s4;
    Trace(alpha, [s, s1, s2, s3, s4], [Store(p, now), Remove(p), Visit(2), Visit(1)]);
  }
}
