/** The route table: a store of paths and, per target, a short list of routes into it.
    Addresses stand for 32-byte overlay addresses; the path key, a digest of the
    concatenated items, is taken to be injective and so is the item list itself. */
module RouteTable {
  import opened Basics

  type Addr = nat
  type Items = seq<Addr>

  datatype Path = Path(items: Items, created: nat, used: nat)
  datatype Route = Route(neighbor: Addr, key: Items)

  /** The two maps of a table as a value. */
  datatype Tab = Tab(paths: map<Items, Path>, routes: map<Addr, seq<Route>>)

  // ---------------------------------------------------------------- what a table promises

  /** A route resolves to a stored path that runs through the target and ends in the
      neighbour to use. */
  predicate RouteOk(paths: map<Items, Path>, target: Addr, r: Route) {
    && r.key in paths && |r.key| >= 2
    && r.neighbor == Last(r.key) && target in Init(r.key)
  }

  predicate ListOk(paths: map<Items, Path>, alpha: nat, target: Addr, l: seq<Route>) {
    && |l| <= alpha && NoDup(l)
    && forall r :: r in l ==> RouteOk(paths, target, r)
  }

  ghost predicate RoutesOk(paths: map<Items, Path>, alpha: nat, routes: map<Addr, seq<Route>>) {
    forall a :: a in routes ==> ListOk(paths, alpha, a, routes[a])
  }

  ghost predicate TabInv(t: Tab, alpha: nat) {
    && (forall k :: k in t.paths ==> t.paths[k].items == k && |k| >= 2)
    && RoutesOk(t.paths, alpha, t.routes)
  }

  lemma {:induction false} KeysArePaths(t: Tab, l: seq<Route>)
    requires forall r :: r in l ==> r.key in t.paths && t.paths[r.key].items == r.key
    ensures |PathsTo(t, l)| == |l| && forall i :: 0 <= i < |l| ==> PathsTo(t, l)[i] == l[i].key
  {
    if l != [] { KeysArePaths(t, l[1..]); }
  }

  // ---------------------------------------------------------------- saving

  predicate ExistRoute(r: Route, l: seq<Route>) {
    r in l
  }

  /** The new list of a target: the new route first, the oldest dropped when full. */
  function PushRoute(alpha: nat, prior: seq<Route>, r: Route): seq<Route>
    requires alpha >= 1
  {
    if prior == [] then [r]
    else if ExistRoute(r, prior) then prior
    else if |prior| > alpha then [r] + prior[..alpha]
    else if |prior| == alpha then [r] + prior[..alpha - 1]
    else [r] + prior
  }

  lemma PushedList(alpha: nat, prior: seq<Route>, r: Route)
    requires alpha >= 1
    ensures var l := PushRoute(alpha, prior, r);
            && (|prior| <= alpha ==> |l| <= alpha) && (NoDup(prior) ==> NoDup(l))
            && r in l && (forall x :: x in l ==> x == r || x in prior) && Refreshed(alpha, prior, r, l)
  {
  }

  /** A known route leaves the list alone; a new one comes first and only the last route of a
      full list goes. */
  predicate Refreshed(alpha: nat, prior: seq<Route>, r: Route, l: seq<Route>)
    requires alpha >= 1
  {
    if r in prior then l == prior
    else if |prior| < alpha then l == [r] + prior
    else if |prior| == alpha then l == [r] + prior[..alpha - 1]
    else l == [r] + prior[..alpha]
  }

  function ListOf(routes: map<Addr, seq<Route>>, a: Addr): seq<Route> {
    if a in routes then routes[a] else []
  }

  /** The stored paths of a target, in list order. */
  function PathsTo(t: Tab, l: seq<Route>): seq<Items> {
    if l == [] then []
    else (if l[0].key in t.paths then [t.paths[l[0].key].items] else []) + PathsTo(t, l[1..])
  }

  function ItemsOf(ps: seq<Path>): (r: seq<Items>)
    ensures |r| == |ps| && forall i :: 0 <= i < |ps| ==> r[i] == ps[i].items
  {
    seq(|ps|, i requires 0 <= i < |ps| => ps[i].items)
  }

  /** The routes after the first `k` items of a path have been entered. */
  function EnterRoutes(alpha: nat, routes: map<Addr, seq<Route>>, items: Items, r: Route, k: nat): map<Addr, seq<Route>>
    requires alpha >= 1 && k <= |items|
  {
    if k == 0 then routes
    else
      var before := EnterRoutes(alpha, routes, items, r, k - 1);
      before[items[k - 1] := PushRoute(alpha, ListOf(before, items[k - 1]), r)]
  }

  /** One turn of the loop over the items. */
  lemma EnterNext(alpha: nat, routes: map<Addr, seq<Route>>, items: Items, r: Route, k: nat,
      before: map<Addr, seq<Route>>)
    returns (after: map<Addr, seq<Route>>)
    requires alpha >= 1 && k < |items| && before == EnterRoutes(alpha, routes, items, r, k)
    ensures after == EnterRoutes(alpha, routes, items, r, k + 1)
    ensures after == before[items[k] := PushRoute(alpha, ListOf(before, items[k]), r)]
  {
    after := EnterRoutes(alpha, routes, items, r, k + 1);
  }

  function Save(t: Tab, alpha: nat, items: Items, now: nat): Tab
    requires alpha >= 1
  {
    if |items| < 2 then t
    else
      Tab(t.paths[items := Path(items, now, now)],
          EnterRoutes(alpha, t.routes, items, Route(Last(items), items), |items| - 1))
  }

  lemma PushOk(paths: map<Items, Path>, alpha: nat, target: Addr, l: seq<Route>, r: Route)
    requires alpha >= 1 && ListOk(paths, alpha, target, l) && RouteOk(paths, target, r)
    ensures ListOk(paths, alpha, target, PushRoute(alpha, l, r))
  {
    PushedList(alpha, l, r);
  }

  lemma {:induction false} EnterRoutesOk(paths: map<Items, Path>, alpha: nat, routes: map<Addr, seq<Route>>,
      items: Items, r: Route, k: nat)
    requires alpha >= 1 && |items| >= 2 && k <= |items| - 1
    requires items in paths && r == Route(Last(items), items) && RoutesOk(paths, alpha, routes)
    ensures RoutesOk(paths, alpha, EnterRoutes(alpha, routes, items, r, k))
  {
    if k > 0 {
      EnterRoutesOk(paths, alpha, routes, items, r, k - 1);
      var a := items[k - 1];
      assert a == Init(items)[k - 1];
      PushOk(paths, alpha, a, ListOf(EnterRoutes(alpha, routes, items, r, k - 1), a), r);
    }
  }

  /** The list of a target once the route has been entered for the first k items. */
  ghost predicate Entered(alpha: nat, routes: map<Addr, seq<Route>>, items: Items, r: Route, k: nat, a: Addr)
    requires alpha >= 1 && k <= |items|
  {
    var l := ListOf(EnterRoutes(alpha, routes, items, r, k), a);
    if a in items[..k] then Refreshed(alpha, ListOf(routes, a), r, l) else l == ListOf(routes, a)
  }

  /** Entering a route a second time changes nothing. */
  lemma PushedTwice(alpha: nat, prior: seq<Route>, r: Route, l: seq<Route>)
    requires alpha >= 1 && (l == prior || Refreshed(alpha, prior, r, l))
    ensures Refreshed(alpha, prior, r, PushRoute(alpha, l, r))
  {
    PushedList(alpha, l, r);
  }

  /** The item just visited. */
  lemma EnteredHere(alpha: nat, routes: map<Addr, seq<Route>>, items: Items, r: Route, k: nat)
    requires alpha >= 1 && 0 < k <= |items|
    ensures Entered(alpha, routes, items, r, k - 1, items[k - 1]) ==> Entered(alpha, routes, items, r, k, items[k - 1])
  {
    var a := items[k - 1];
    var l := ListOf(EnterRoutes(alpha, routes, items, r, k - 1), a);
    assert a in items[..k] by { assert items[..k][k - 1] == a; }
    if Entered(alpha, routes, items, r, k - 1, a) { PushedTwice(alpha, ListOf(routes, a), r, l); }
  }

  /** Any other one. */
  lemma ListElsewhere(before: map<Addr, seq<Route>>, b: Addr, l: seq<Route>, items: Items, k: nat, a: Addr)
    requires 0 < k <= |items| && b == items[k - 1] && a != b
    ensures ListOf(before[b := l], a) == ListOf(before, a) && (a in items[..k] <==> a in items[..k - 1])
  {
    assert items[..k] == items[..k - 1] + [b];
  }

  lemma EnteredElsewhere(alpha: nat, routes: map<Addr, seq<Route>>, items: Items, r: Route, k: nat, a: Addr)
    requires alpha >= 1 && 0 < k <= |items| && a != items[k - 1]
    ensures Entered(alpha, routes, items, r, k - 1, a) ==> Entered(alpha, routes, items, r, k, a)
  {
    var before, b := EnterRoutes(alpha, routes, items, r, k - 1), items[k - 1];
    ListElsewhere(before, b, PushRoute(alpha, ListOf(before, b), r), items, k, a);
  }

  lemma {:induction false} EnteredAt(alpha: nat, routes: map<Addr, seq<Route>>, items: Items, r: Route, k: nat, a: Addr)
    requires alpha >= 1 && k <= |items|
    ensures Entered(alpha, routes, items, r, k, a)
    decreases k
  {
    if k == 0 {
      assert items[..0] == [];
    } else {
      EnteredAt(alpha, routes, items, r, k - 1, a);
      if a == items[k - 1] {
        EnteredHere(alpha, routes, items, r, k);
      } else {
        EnteredElsewhere(alpha, routes, items, r, k, a);
      }
    }
  }

  lemma EnteredExactly(alpha: nat, routes: map<Addr, seq<Route>>, items: Items, r: Route, k: nat)
    requires alpha >= 1 && k <= |items|
    ensures var routes' := EnterRoutes(alpha, routes, items, r, k);
            && (forall a :: a in items[..k] ==> Refreshed(alpha, ListOf(routes, a), r, ListOf(routes', a)))
            && (forall a :: a !in items[..k] ==> ListOf(routes', a) == ListOf(routes, a))
  {
    var routes' := EnterRoutes(alpha, routes, items, r, k);
    forall a | a in items[..k] ensures Refreshed(alpha, ListOf(routes, a), r, ListOf(routes', a)) {
      EnteredAt(alpha, routes, items, r, k, a);
    }
    forall a | a !in items[..k] ensures ListOf(routes', a) == ListOf(routes, a) {
      EnteredAt(alpha, routes, items, r, k, a);
    }
  }

  /** Where the route is known already, entering it changes nothing at all. */
  lemma {:induction false} EnteredAgain(alpha: nat, routes: map<Addr, seq<Route>>, items: Items, r: Route, k: nat)
    requires alpha >= 1 && k <= |items| && forall a :: a in items[..k] ==> r in ListOf(routes, a)
    ensures EnterRoutes(alpha, routes, items, r, k) == routes
    decreases k
  {
    if k > 0 {
      assert items[..k] == items[..k - 1] + [items[k - 1]];
      EnteredAgain(alpha, routes, items, r, k - 1);
    }
  }

  lemma MorePaths(paths: map<Items, Path>, paths': map<Items, Path>, alpha: nat, routes: map<Addr, seq<Route>>)
    requires RoutesOk(paths, alpha, routes) && paths.Keys <= paths'.Keys
    ensures RoutesOk(paths', alpha, routes)
  {
  }

  /** Saving keeps the promises. */
  lemma SaveKeeps(t: Tab, alpha: nat, items: Items, now: nat)
    requires alpha >= 1 && TabInv(t, alpha)
    ensures TabInv(Save(t, alpha, items, now), alpha)
  {
    if |items| >= 2 {
      var paths' := t.paths[items := Path(items, now, now)];
      SavedRoutesOk(t, alpha, items, paths');
    }
  }

  lemma SavedRoutesOk(t: Tab, alpha: nat, items: Items, paths': map<Items, Path>)
    requires alpha >= 1 && RoutesOk(t.paths, alpha, t.routes) && |items| >= 2
    requires paths'.Keys == t.paths.Keys + {items}
    ensures RoutesOk(paths', alpha, EnterRoutes(alpha, t.routes, items, Route(Last(items), items), |items| - 1))
  {
    MorePaths(t.paths, paths', alpha, t.routes);
    EnterRoutesOk(paths', alpha, t.routes, items, Route(Last(items), items), |items| - 1);
  }

  /** Saving stores the path and enters it for every item but the last, and no other target. */
  lemma SaveEffect(t: Tab, alpha: nat, items: Items, now: nat)
    requires alpha >= 1 && |items| >= 2
    ensures var t' := Save(t, alpha, items, now);
            && t'.paths.Keys == t.paths.Keys + {items}
            && var r := Route(Last(items), items);
            && (forall a :: a in Init(items) ==> Refreshed(alpha, ListOf(t.routes, a), r, ListOf(t'.routes, a)))
            && (forall a :: a in Init(items) ==> r in ListOf(t'.routes, a))
            && (forall a :: a !in Init(items) ==> ListOf(t'.routes, a) == ListOf(t.routes, a))
  {
    EnteredExactly(alpha, t.routes, items, Route(Last(items), items), |items| - 1);
  }

  /** A route goes only where `r` is new and the list was full, and then it is the last one;
      the others stay in their order. */
  predicate OnlyOldestGone(alpha: nat, l: seq<Route>, r: Route, l': seq<Route>) {
    && (forall x :: x in l && x !in l' ==> r !in l && |l| == alpha && x == Last(l))
    && if r !in l && r in l' then l'[0] == r && l'[1..] <= l else l' == l
  }

  lemma RefreshedForgets(alpha: nat, l: seq<Route>, r: Route, l': seq<Route>)
    requires alpha >= 1 && |l| <= alpha && (l' == l || Refreshed(alpha, l, r, l'))
    ensures OnlyOldestGone(alpha, l, r, l')
  {
    if r !in l && |l| == alpha && l' != l {
      forall x | x in l ensures x in l' || x == Last(l) {
        var i :| 0 <= i < |l| && l[i] == x;
        if i < alpha - 1 { assert l'[i + 1] == x; }
      }
    }
  }

  lemma SaveForgetsAt(t: Tab, alpha: nat, items: Items, now: nat, a: Addr)
    requires alpha >= 1 && TabInv(t, alpha) && |items| >= 2
    ensures OnlyOldestGone(alpha, ListOf(t.routes, a), Route(Last(items), items),
                           ListOf(Save(t, alpha, items, now).routes, a))
  {
    var r := Route(Last(items), items);
    EnteredAt(alpha, t.routes, items, r, |items| - 1, a);
    if a in t.routes { assert ListOk(t.paths, alpha, a, t.routes[a]); }
    RefreshedForgets(alpha, ListOf(t.routes, a), r, ListOf(Save(t, alpha, items, now).routes, a));
  }

  /** A save forgets at most the oldest route of a full list, and a path that is known under
      all its targets changes no route. */
  lemma SaveForgetsOnlyTheOldest(t: Tab, alpha: nat, items: Items, now: nat)
    requires alpha >= 1 && TabInv(t, alpha) && |items| >= 2
    ensures var t', r := Save(t, alpha, items, now), Route(Last(items), items);
            && (forall a :: OnlyOldestGone(alpha, ListOf(t.routes, a), r, ListOf(t'.routes, a)))
            && ((forall a :: a in Init(items) ==> r in ListOf(t.routes, a)) ==> t'.routes == t.routes)
  {
    var r := Route(Last(items), items);
    forall a ensures OnlyOldestGone(alpha, ListOf(t.routes, a), r, ListOf(Save(t, alpha, items, now).routes, a)) {
      SaveForgetsAt(t, alpha, items, now, a);
    }
    if forall a :: a in Init(items) ==> r in ListOf(t.routes, a) {
      EnteredAgain(alpha, t.routes, items, r, |items| - 1);
    }
  }

  // ---------------------------------------------------------------- deleting

  predicate Mentions(l: seq<Route>, key: Items) {
    exists r :: r in l && r.key == key
  }

  function Without(l: seq<Route>, key: Items): (r: seq<Route>)
    ensures |r| <= |l| && (|r| == |l| ==> r == l)
    ensures forall x :: x in r <==> x in l && x.key != key
    ensures NoDup(l) ==> NoDup(r)
  {
    if l == [] then []
    else
      var rest := Without(l[1..], key);
      HeadApart(l[0], l[1..], l);
      HeadApart(l[0], rest, [l[0]] + rest);
      if l[0].key == key then rest else [l[0]] + rest
  }

  lemma HeadApart(x: Route, rest: seq<Route>, l: seq<Route>)
    requires l != [] && l[0] == x && l[1..] == rest
    ensures NoDup(l) <==> NoDup(rest) && x !in rest
  {
    assert forall i :: 0 <= i < |rest| ==> rest[i] == l[i + 1];
    if NoDup(rest) && x !in rest {
      forall i, j | 0 <= i < j < |l| ensures l[i] != l[j] { assert l[j] == rest[j - 1]; }
    }
  }

  lemma {:induction false} WithoutNothing(l: seq<Route>, key: Items)
    requires forall r :: r in l ==> r.key != key
    ensures Without(l, key) == l
  {
    if l != [] { WithoutNothing(l[1..], key); }
  }

  /** Targets up to the `k`-th item, each filtered only when something goes. */
  function DropRoutes(routes: map<Addr, seq<Route>>, items: Items, key: Items, k: nat): map<Addr, seq<Route>>
    requires k <= |items|
  {
    if k == 0 then routes
    else
      var before := DropRoutes(routes, items, key, k - 1);
      var a := items[k - 1];
      if a !in before then before
      else
        var l := Without(before[a], key);
        if |l| < |before[a]| then before[a := l] else before
  }

  /** Delete visits only the targets on the path. */
  function Delete(t: Tab, items: Items): Tab {
    Tab(t.paths - {items}, DropRoutes(t.routes, items, items, if items == [] then 0 else |items| - 1))
  }

  /** Deleting under every target at once. */
  function DeleteEverywhere(t: Tab, items: Items): Tab {
    Tab(t.paths - {items}, WithoutRoutes(t.routes, items))
  }

  function WithoutRoutes(routes: map<Addr, seq<Route>>, key: Items): map<Addr, seq<Route>> {
    map a | a in routes :: Without(routes[a], key)
  }

  lemma DropRoutesIs(routes: map<Addr, seq<Route>>, items: Items, key: Items, k: nat)
    requires k <= |items|
    ensures var routes' := DropRoutes(routes, items, key, k);
            && routes'.Keys == routes.Keys
            && forall a :: a in routes ==> routes'[a] == if a in items[..k] then Without(routes[a], key) else routes[a]
  {
    DropRoutesKeys(routes, items, key, k);
    forall a | a in routes
      ensures DropRoutes(routes, items, key, k)[a] == if a in items[..k] then Without(routes[a], key) else routes[a]
    {
      DroppedAt(routes, items, key, k, a);
    }
  }

  lemma {:induction false} DropRoutesKeys(routes: map<Addr, seq<Route>>, items: Items, key: Items, k: nat)
    requires k <= |items|
    ensures DropRoutes(routes, items, key, k).Keys == routes.Keys
  {
    if k > 0 { DropRoutesKeys(routes, items, key, k - 1); }
  }

  /** One turn of the loop, seen at one target. */
  lemma DropNext(routes: map<Addr, seq<Route>>, items: Items, key: Items, k: nat, a: Addr)
    requires 0 < k <= |items| && a in DropRoutes(routes, items, key, k - 1) && a in DropRoutes(routes, items, key, k)
    ensures var l := DropRoutes(routes, items, key, k - 1)[a];
            DropRoutes(routes, items, key, k)[a] == if a == items[k - 1] then Without(l, key) else l
  {
  }

  lemma {:induction false} DroppedAt(routes: map<Addr, seq<Route>>, items: Items, key: Items, k: nat, a: Addr)
    requires k <= |items| && a in routes && a in DropRoutes(routes, items, key, k)
    ensures DropRoutes(routes, items, key, k)[a] == if a in items[..k] then Without(routes[a], key) else routes[a]
    decreases k
  {
    if k > 0 {
      DropRoutesKeys(routes, items, key, k - 1);
      DroppedAt(routes, items, key, k - 1, a);
      DropNext(routes, items, key, k, a);
      assert items[..k] == items[..k - 1] + [items[k - 1]];
      WithoutNothing(Without(routes[a], key), key);
    }
  }

  /** A target that is not on a path has no route to it. */
  lemma NotMentioned(t: Tab, alpha: nat, items: Items, a: Addr)
    requires TabInv(t, alpha) && a in t.routes && a !in items[..if items == [] then 0 else |items| - 1]
    ensures Without(t.routes[a], items) == t.routes[a]
  {
    assert ListOk(t.paths, alpha, a, t.routes[a]);
    WithoutNothing(t.routes[a], items);
  }

  lemma DropIsEverywhere(routes: map<Addr, seq<Route>>, items: Items, key: Items, k: nat)
    requires k <= |items|
    requires forall a :: a in routes && a !in items[..k] ==> Without(routes[a], key) == routes[a]
    ensures DropRoutes(routes, items, key, k) == WithoutRoutes(routes, key)
  {
    DropRoutesIs(routes, items, key, k);
  }

  /** Visiting the targets on the path reaches every reference to it. */
  lemma DeleteIsEverywhere(t: Tab, alpha: nat, items: Items)
    requires TabInv(t, alpha)
    ensures Delete(t, items) == DeleteEverywhere(t, items)
  {
    var k := if items == [] then 0 else |items| - 1;
    forall a | a in t.routes && a !in items[..k] ensures Without(t.routes[a], items) == t.routes[a] {
      NotMentioned(t, alpha, items, a);
    }
    DropIsEverywhere(t.routes, items, items, k);
  }

  lemma DeleteKeeps(t: Tab, alpha: nat, items: Items)
    requires TabInv(t, alpha)
    ensures TabInv(Delete(t, items), alpha)
    ensures items !in Delete(t, items).paths
    ensures forall a :: a in Delete(t, items).routes ==> !Mentions(Delete(t, items).routes[a], items)
  {
    DeleteIsEverywhere(t, alpha, items);
    forall a | a in t.routes ensures ListOk(t.paths - {items}, alpha, a, Without(t.routes[a], items)) {
      assert ListOk(t.paths, alpha, a, t.routes[a]);
    }
  }

  // ---------------------------------------------------------------- garbage collection

  /** A table without a set of paths and without every route to them. */
  function DeleteAll(t: Tab, gone: set<Items>): Tab {
    Tab(t.paths - gone, map a | a in t.routes :: WithoutAll(t.routes[a], gone))
  }

  function WithoutAll(l: seq<Route>, gone: set<Items>): (r: seq<Route>)
    ensures forall x :: x in r <==> x in l && x.key !in gone
  {
    if l == [] then []
    else
      var rest := WithoutAll(l[1..], gone);
      if l[0].key in gone then rest else [l[0]] + rest
  }

  lemma {:induction false} WithoutOneMore(l: seq<Route>, gone: set<Items>, key: Items)
    ensures Without(WithoutAll(l, gone), key) == WithoutAll(l, gone + {key})
  {
    if l != [] { WithoutOneMore(l[1..], gone, key); }
  }

  lemma {:induction false} WithoutNone(l: seq<Route>)
    ensures WithoutAll(l, {}) == l
  {
    if l != [] { WithoutNone(l[1..]); }
  }

  /** The paths not used for longer than `expire`. */
  function Expired(t: Tab, now: nat, expire: nat): set<Items> {
    set k | k in t.paths && now - t.paths[k].used > expire
  }

  /** A path is collected once it is older than `expire`, counted from its last save. */
  lemma SavedExpiresIff(t: Tab, alpha: nat, items: Items, saved: nat, now: nat, expire: nat)
    requires alpha >= 1 && |items| >= 2
    ensures items in Expired(Save(t, alpha, items, saved), now, expire) <==> now > saved + expire
  {
  }

  lemma DeleteNone(t: Tab)
    ensures DeleteAll(t, {}) == t
  {
    assert t.paths - {} == t.paths;
    forall a | a in t.routes ensures WithoutAll(t.routes[a], {}) == t.routes[a] {
      WithoutNone(t.routes[a]);
    }
  }

  lemma DeleteOneMore(t: Tab, alpha: nat, gone: set<Items>, key: Items)
    requires TabInv(DeleteAll(t, gone), alpha)
    ensures Delete(DeleteAll(t, gone), key) == DeleteAll(t, gone + {key})
  {
    DeleteIsEverywhere(DeleteAll(t, gone), alpha, key);
    AllAndOneMore(t, gone, key);
  }

  lemma AllAndOneMore(t: Tab, gone: set<Items>, key: Items)
    ensures DeleteEverywhere(DeleteAll(t, gone), key) == DeleteAll(t, gone + {key})
  {
    forall a | a in t.routes
      ensures Without(WithoutAll(t.routes[a], gone), key) == WithoutAll(t.routes[a], gone + {key})
    {
      WithoutOneMore(t.routes[a], gone, key);
    }
    assert t.paths - gone - {key} == t.paths - (gone + {key});
  }

  // ---------------------------------------------------------------- the table object

  datatype Found<T> = Ok(value: T) | NotFound

  class Table {
    const self: Addr
    const alpha: nat
    var paths: map<Items, Path>
    var routes: map<Addr, seq<Route>>

    function View(): Tab
      reads this
    {
      Tab(paths, routes)
    }

    ghost predicate Valid()
      reads this
    {
      alpha >= 1 && TabInv(View(), alpha)
    }

    constructor (self: Addr, alpha: nat)
      requires alpha >= 1
      ensures Valid() && View() == Tab(map[], map[]) && this.self == self && this.alpha == alpha
    {
      this.self, this.alpha := self, alpha;
      paths, routes := map[], map[];
    }

    /** Entering one route under one target. */
    method Enter(target: Addr, route: Route)
      requires alpha >= 1
      modifies this`routes
      ensures routes == old(routes)[target := PushRoute(alpha, ListOf(old(routes), target), route)]
    {
      if target in routes && |routes[target]| > 0 {
        var prior := routes[target];
        if ExistRoute(route, prior) {
          return;
        }
        var now := [route];
        if |prior| > alpha {
          now := now + prior[..alpha];
        } else if |prior| == alpha {
          now := now + prior[..alpha - 1];
        } else {
          now := now + prior;
        }
        routes := routes[target := now];
      } else {
        routes := routes[target := [route]];
      }
    }

    method SavePath(items: Items, now: nat)
      requires Valid()
      modifies this
      ensures Valid() && View() == Save(old(View()), alpha, items, now)
    {
      SaveKeeps(View(), alpha, items, now);
      if |items| < 2 { return; }
      paths := paths[items := Path(items, now, now)];
      EnterAll(items);
    }

    /** The loop over the targets of a path. */
    method EnterAll(items: Items)
      requires alpha >= 1 && |items| >= 2
      modifies this`routes
      ensures routes == EnterRoutes(alpha, old(routes), items, Route(Last(items), items), |items| - 1)
    {
      var route := Route(items[|items| - 1], items);
      ghost var start, entered := routes, routes;
      for k := 0 to |items| - 1
        invariant routes == entered == EnterRoutes(alpha, start, items, route, k)
      {
        Enter(items[k], route);
        entered := EnterNext(alpha, start, items, route, k, entered);
      }
    }

    /** Every route of the target is answered with its stored path. */
    method Get(target: Addr) returns (r: Found<seq<Path>>)
      requires Valid()
      ensures r.NotFound? <==> ListOf(routes, target) == []
      ensures ItemsOf(if r.Ok? then r.value else []) == PathsTo(View(), ListOf(routes, target))
      ensures r.Ok? ==> |r.value| == |routes[target]|
      ensures r.Ok? ==> forall i :: 0 <= i < |r.value| ==>
        && |r.value[i].items| >= 2 && r.value[i].items == routes[target][i].key
        && target in Init(r.value[i].items) && Last(r.value[i].items) == routes[target][i].neighbor
    {
      if target !in routes { return NotFound; }
      var found: seq<Path> := [];
      var l := routes[target];
      assert ListOk(paths, alpha, target, l);
      for i := 0 to |l|
        invariant |found| == i && forall j :: 0 <= j < i ==> found[j].items == l[j].key
      {
        assert l[i] in l;
        if l[i].key in paths { found := found + [paths[l[i].key]]; }
      }
      KeysArePaths(View(), l);
      assert forall j :: 0 <= j < |l| ==> l[j] in l;
      r := if found == [] then NotFound else Ok(found);
    }

    /** The distinct neighbours of a target's routes that are not to be skipped. */
    method GetNextHop(target: Addr, skips: seq<Addr>) returns (next: seq<Addr>)
      ensures NoDup(next)
      ensures forall a :: a in next <==> a !in skips && exists r :: r in ListOf(routes, target) && r.neighbor == a
    {
      next := [];
      if target in routes {
        var l := routes[target];
        for i := 0 to |l|
          invariant NoDup(next)
          invariant forall a :: a in next <==> a !in skips && exists r :: r in l[..i] && r.neighbor == a
        {
          assert l[..i + 1] == l[..i] + [l[i]];
          if l[i].neighbor !in skips && l[i].neighbor !in next { next := next + [l[i].neighbor]; }
        }
        assert l[..|l|] == l;
      }
    }

    method DeletePath(items: Items)
      requires Valid()
      modifies this
      ensures Valid() && View() == DeleteEverywhere(old(View()), items)
    {
      ghost var before := View();
      paths := paths - {items};
      var n := if items == [] then 0 else |items| - 1;
      for k := 0 to n
        invariant paths == old(paths) - {items}
        invariant routes == DropRoutes(old(routes), items, items, k)
      {
        var target := items[k];
        if target in routes {
          var now := Without(routes[target], items);
          if |now| < |routes[target]| { routes := routes[target := now]; }
        }
      }
      assert View() == Delete(before, items);
      DeleteKeeps(before, alpha, items);
      DeleteIsEverywhere(before, alpha, items);
    }

    /** Whatever order the expired paths are visited in, exactly they and the routes
        to them go. */
    method Gc(now: nat, expire: nat)
      requires Valid()
      modifies this
      ensures Valid() && View() == DeleteAll(old(View()), Expired(old(View()), now, expire))
    {
      ghost var before := View();
      DeleteNone(before);
      var left := paths.Keys;
      ghost var gone: set<Items> := {};
      while left != {}
        invariant left <= before.paths.Keys && gone !! left
        invariant gone <= Expired(before, now, expire) <= gone + left
        invariant Valid() && View() == DeleteAll(before, gone)
      {
        var key :| key in left;
        left := left - {key};
        if now - paths[key].used > expire {
          DeleteOneMore(before, alpha, gone, key);
          DeleteIsEverywhere(View(), alpha, key);
          gone := gone + {key};
          DeletePath(key);
        }
      }
      assert gone == Expired(before, now, expire);
    }
  }
}
