/** The table of pending calls and its garbage collection. */
module RoutePending {
  import opened Basics
  import opened RouteTable

  /** `ch` is the channel a local FindRoute waits on, if any. */
  datatype Item = Item(src: Addr, created: nat, ch: Option<nat>)

  // ---------------------------------------------------------------- expiry of one list

  predicate Fresh(it: Item, now: nat, expire: nat) {
    now - it.created < expire
  }

  function KeepFresh(l: seq<Item>, now: nat, expire: nat): (r: seq<Item>)
    ensures forall x :: x in r <==> x in l && Fresh(x, now, expire)
  {
    if l == [] then []
    else (if Fresh(l[0], now, expire) then [l[0]] else []) + KeepFresh(l[1..], now, expire)
  }

  /** The index where the scan stops: the first entry that is still fresh. */
  function FirstFresh(l: seq<Item>, now: nat, expire: nat): (k: nat)
    ensures k <= |l| && (k < |l| ==> Fresh(l[k], now, expire))
    ensures forall i :: 0 <= i < k ==> !Fresh(l[i], now, expire)
  {
    if l == [] || Fresh(l[0], now, expire) then 0 else 1 + FirstFresh(l[1..], now, expire)
  }

  /** What is left of a list; empty means the key is removed. */
  function GcList(l: seq<Item>, now: nat, expire: nat): seq<Item> {
    l[FirstFresh(l, now, expire)..]
  }

  /** No entry that expired stands behind one that has not. */
  predicate ExpiredFirst(l: seq<Item>, now: nat, expire: nat) {
    forall i, j :: 0 <= i < j < |l| && Fresh(l[i], now, expire) ==> Fresh(l[j], now, expire)
  }

  lemma {:induction false} AllFresh(l: seq<Item>, now: nat, expire: nat)
    ensures KeepFresh(l, now, expire) == l <==> forall i :: 0 <= i < |l| ==> Fresh(l[i], now, expire)
  {
    if l != [] {
      AllFresh(l[1..], now, expire);
      KeepShorter(l[1..], now, expire);
      if Fresh(l[0], now, expire) {
        SameTails(l[0], KeepFresh(l[1..], now, expire), l);
        assert forall i :: 1 <= i < |l| ==> l[i] == l[1..][i - 1];
      } else {
        assert |KeepFresh(l, now, expire)| < |l|;
      }
    }
  }

  lemma SameTails(x: Item, a: seq<Item>, l: seq<Item>)
    requires l != [] && x == l[0]
    ensures [x] + a == l <==> a == l[1..]
  {
    if [x] + a == l { assert l[1..] == a; }
  }

  lemma {:induction false} KeepShorter(l: seq<Item>, now: nat, expire: nat)
    ensures |KeepFresh(l, now, expire)| <= |l|
  {
    if l != [] { KeepShorter(l[1..], now, expire); }
  }

  lemma {:induction false} KeepDropsPrefix(l: seq<Item>, now: nat, expire: nat)
    ensures KeepFresh(l, now, expire) == KeepFresh(GcList(l, now, expire), now, expire)
  {
    if l != [] && !Fresh(l[0], now, expire) {
      KeepDropsPrefix(l[1..], now, expire);
      assert GcList(l, now, expire) == GcList(l[1..], now, expire);
    } else {
      assert GcList(l, now, expire) == l;
    }
  }

  lemma ExpiredFirstIff(l: seq<Item>, now: nat, expire: nat, k: nat)
    requires k == FirstFresh(l, now, expire)
    ensures ExpiredFirst(l, now, expire) <==> forall i :: k <= i < |l| ==> Fresh(l[i], now, expire)
  {
  }

  lemma AllFreshFrom(l: seq<Item>, now: nat, expire: nat, k: nat)
    requires k <= |l|
    ensures KeepFresh(l[k..], now, expire) == l[k..] <==> forall i :: k <= i < |l| ==> Fresh(l[i], now, expire)
  {
    AllFresh(l[k..], now, expire);
    if KeepFresh(l[k..], now, expire) == l[k..] {
      forall i | k <= i < |l| ensures Fresh(l[i], now, expire) { assert l[i] == l[k..][i - k]; }
    }
  }

  /** Collection keeps exactly the unexpired entries if and only if no expired entry
      stands behind a fresh one. */
  lemma {:induction false} GcIsExact(l: seq<Item>, now: nat, expire: nat)
    ensures GcList(l, now, expire) == KeepFresh(l, now, expire) <==> ExpiredFirst(l, now, expire)
  {
    var k := FirstFresh(l, now, expire);
    KeepDropsPrefix(l, now, expire);
    AllFreshFrom(l, now, expire, k);
    ExpiredFirstIff(l, now, expire, k);
  }

  /** Two calls whose times were taken in one order and which entered in the other: the
      expired one is kept as long as the fresh one stands before it. */
  lemma LateEntryStays(a: Addr, b: Addr, now: nat, expire: nat)
    requires 0 < expire <= now
    ensures var l := [Item(a, now, None), Item(b, now - expire, None)];
            GcList(l, now, expire) == l && !Fresh(l[1], now, expire)
  {
  }

  predicate InOrder(l: seq<Item>) {
    forall i, j :: 0 <= i < j < |l| ==> l[i].created <= l[j].created
  }

  /** In order, and none from the future. */
  predicate UpTo(l: seq<Item>, now: nat) {
    InOrder(l) && forall i :: 0 <= i < |l| ==> l[i].created <= now
  }

  /** Entries added at nondecreasing times satisfy the condition at every moment. */
  lemma {:induction false} InOrderExpiresFirst(l: seq<Item>, now: nat, expire: nat)
    requires InOrder(l)
    ensures ExpiredFirst(l, now, expire) && GcList(l, now, expire) == KeepFresh(l, now, expire)
  {
    GcIsExact(l, now, expire);
  }

  // ---------------------------------------------------------------- the table as a value

  /** Who waits for which target, and which requests are under way to which next hop. */
  datatype Calls = Calls(resp: map<Addr, seq<Item>>, reqs: map<(Addr, Addr), nat>)

  function CallersOf(c: Calls, target: Addr): seq<Item> {
    if target in c.resp then c.resp[target] else []
  }

  /** Every caller is remembered; a request already under way keeps its time. */
  function AddCall(c: Calls, target: Addr, src: Addr, next: Addr, ch: Option<nat>, now: nat): Calls {
    Calls(c.resp[target := CallersOf(c, target) + [Item(src, now, ch)]],
          if (target, next) in c.reqs then c.reqs else c.reqs[(target, next) := now])
  }

  /** Calls added at nondecreasing times stay in order. */
  lemma AddKeepsOrder(c: Calls, target: Addr, src: Addr, next: Addr, ch: Option<nat>, now: nat)
    requires UpTo(CallersOf(c, target), now)
    ensures UpTo(CallersOf(AddCall(c, target, src, next, ch, now), target), now)
  {
  }

  /** The whole list leaves at once; without callers nothing changes. */
  /** A request is collected once its first call is `expire` old, however many follow. */
  lemma RequestExpiresIff(c: Calls, target: Addr, src: Addr, next: Addr, ch: Option<nat>, now: nat, later: nat,
      expire: nat)
    ensures var first := if (target, next) in c.reqs then c.reqs[(target, next)] else now;
            var reqs := GcReq(AddCall(c, target, src, next, ch, now).reqs, later, expire);
            (target, next) in reqs <==> later - first < expire
  {
  }

  function TakeCalls(c: Calls, target: Addr, next: Addr): Calls {
    if target in c.resp then Calls(c.resp - {target}, c.reqs - {(target, next)}) else c
  }

  function DropCalls(c: Calls, target: Addr, next: Addr): Calls {
    Calls(c.resp - {target}, c.reqs - {(target, next)})
  }

  function GcRes(m: map<Addr, seq<Item>>, now: nat, expire: nat): map<Addr, seq<Item>> {
    map a | a in m && GcList(m[a], now, expire) != [] :: GcList(m[a], now, expire)
  }

  /** The lists when those of `left` are still to be looked at. */
  function GcPart(m: map<Addr, seq<Item>>, left: set<Addr>, now: nat, expire: nat): map<Addr, seq<Item>> {
    map a | a in m && (a in left || GcList(m[a], now, expire) != []) ::
      if a in left then m[a] else GcList(m[a], now, expire)
  }

  lemma AllLeft(m: map<Addr, seq<Item>>, now: nat, expire: nat)
    ensures GcPart(m, m.Keys, now, expire) == m && GcPart(m, {}, now, expire) == GcRes(m, now, expire)
  {
  }

  lemma OneListMore(m: map<Addr, seq<Item>>, left: set<Addr>, key: Addr, now: nat, expire: nat)
    requires key in left && left <= m.Keys
    ensures var part, l := GcPart(m, left, now, expire), GcList(m[key], now, expire);
            GcPart(m, left - {key}, now, expire) == if l == [] then part - {key} else part[key := l]
  {
  }

  function GcReq(m: map<(Addr, Addr), nat>, now: nat, expire: nat): map<(Addr, Addr), nat> {
    map k | k in m && now - m[k] < expire :: m[k]
  }

  // ---------------------------------------------------------------- the table object

  class PendCallResTab {
    var respList: map<Addr, seq<Item>>
    var reqList: map<(Addr, Addr), nat>

    function View(): Calls
      reads this
    {
      Calls(respList, reqList)
    }

    /** No list is ever empty: the collector reads the first entry of each. */
    ghost predicate Valid()
      reads this
    {
      forall a :: a in respList ==> respList[a] != []
    }

    constructor ()
      ensures Valid() && View() == Calls(map[], map[])
    {
      respList, reqList := map[], map[];
    }

    method Delete(target: Addr, next: Addr)
      requires Valid()
      modifies this
      ensures Valid() && View() == DropCalls(old(View()), target, next)
    {
      respList := respList - {target};
      reqList := reqList - {(target, next)};
    }

    /** `has` tells that a request is already under way. */
    method Add(target: Addr, src: Addr, next: Addr, ch: Option<nat>, now: nat) returns (has: bool)
      requires Valid()
      modifies this
      ensures Valid() && View() == AddCall(old(View()), target, src, next, ch, now)
      ensures has <==> (target, next) in old(reqList)
    {
      var pending := Item(src, now, ch);
      if target in respList {
        respList := respList[target := respList[target] + [pending]];
      } else {
        respList := respList[target := [pending]];
        assert [pending] == [] + [pending];
      }
      has := (target, next) in reqList;
      if !has { reqList := reqList[(target, next) := now]; }
    }

    /** Takes the whole list, so no entry is handed out twice. */
    method Get(target: Addr, next: Addr) returns (r: seq<Item>)
      requires Valid()
      modifies this
      ensures Valid() && View() == TakeCalls(old(View()), target, next)
      ensures r == CallersOf(old(View()), target)
    {
      r := [];
      if target in respList {
        r := respList[target];
        respList := respList - {target};
        reqList := reqList - {(target, next)};
      }
    }

    method GcReqLog(now: nat, expire: nat)
      requires Valid()
      modifies this`reqList
      ensures reqList == GcReq(old(reqList), now, expire)
    {
      var left := reqList.Keys;
      while left != {}
        invariant left <= old(reqList).Keys
        invariant forall k :: k in reqList <==> k in old(reqList) && (k in left || now - old(reqList)[k] < expire)
        invariant forall k :: k in reqList ==> reqList[k] == old(reqList)[k]
      {
        var key :| key in left;
        left := left - {key};
        if now - reqList[key] >= expire { reqList := reqList - {key}; }
      }
    }

    /** The scan for the first unexpired entry of one list. */
    static method Scan(item: seq<Item>, now: nat, expire: nat) returns (expireK: nat)
      requires item != [] && !Fresh(item[0], now, expire)
      ensures expireK < |item|
      ensures expireK == if FirstFresh(item, now, expire) == |item| then 0 else FirstFresh(item, now, expire)
    {
      expireK := 0;
      for k := 0 to |item|
        invariant expireK == 0 && FirstFresh(item, now, expire) >= k
      {
        if now - item[k].created < expire {
          expireK := k;
          break;
        }
      }
    }

    method GcResItems(now: nat, expire: nat)
      requires Valid()
      modifies this`respList
      ensures Valid() && respList == GcRes(old(respList), now, expire)
    {
      respList := Collect(respList, now, expire);
    }

    /** The walk over the lists, in any order. */
    static method Collect(m: map<Addr, seq<Item>>, now: nat, expire: nat) returns (r: map<Addr, seq<Item>>)
      requires forall a :: a in m ==> m[a] != []
      ensures r == GcRes(m, now, expire)
    {
      r := m;
      var left := m.Keys;
      AllLeft(m, now, expire);
      while left != {}
        invariant left <= m.Keys && r == GcPart(m, left, now, expire)
      {
        var key :| key in left;
        var item := m[key];
        OneListMore(m, left, key, now, expire);
        left := left - {key};
        if now - item[0].created < expire {
          assert GcList(item, now, expire) == item;
          continue;
        }
        var expireK := Scan(item, now, expire);
        if expireK == 0 {
          r := r - {key};
        } else {
          r := r[key := item[expireK..]];
        }
      }
    }
  }
}
