/**
 Trust-split path selection (crates/nil-coordinator/src/pathsel.rs) and the neighbour binding of the
 selected hops (crates/nil-coordinator/src/api.rs).

 `ExtendPath` is the backtracking search as the source runs it, pushing and popping one shared
 vector.  Its specification does not mention the search: a path is `Good` or not.
 */
module PathSelection {
  import opened Text

  datatype Role = Entry | Middle | Exit

  /** A registry entry, reduced to what selection looks at. */
  datatype Node = Node(id: string, host: string, port: nat, operator: string, jurisdiction: string, role: Role)

  /** First is the entry, last is the exit, the rest are middles; a lone hop is an exit. */
  function RoleFor(i: nat, hops: nat): Role {
    if i + 1 == hops then Exit else if i == 0 then Entry else Middle
  }

  /** Legally and physically independent nodes. */
  predicate Independent(a: Node, b: Node) {
    && a.operator != b.operator && a.jurisdiction != b.jurisdiction
    && a.id != b.id && !(a.host == b.host && a.port == b.port)
  }

  /** `path` may be the first part of a `hops`-long trust-split path. */
  ghost predicate Partial(path: seq<Node>, hops: nat) {
    && |path| <= hops
    && (forall i :: 0 <= i < |path| ==> path[i].role == RoleFor(i, hops))
    && (forall i, j :: 0 <= i < j < |path| ==> Independent(path[i], path[j]))
  }

  /** A complete trust-split path drawn from `pool`. */
  ghost predicate Good(path: seq<Node>, hops: nat, pool: seq<Node>) {
    && |path| == hops && Partial(path, hops)
    && forall n :: n in path ==> n in pool
  }

  /** What the trust split means: nodes of the pool, one after the other an entry, middles and an exit (a
      lone hop is an exit), no two of one operator, of one jurisdiction, of one identity or at one
      endpoint. */
  ghost predicate TrustSplit(path: seq<Node>, hops: nat, pool: seq<Node>) {
    && |path| == hops
    && (forall i :: 0 <= i < hops ==> path[i] in pool)
    && (forall i, j :: 0 <= i < j < hops ==> path[i].operator != path[j].operator)
    && (forall i, j :: 0 <= i < j < hops ==> path[i].jurisdiction != path[j].jurisdiction)
    && (forall i, j :: 0 <= i < j < hops ==> path[i].id != path[j].id)
    && (forall i, j :: 0 <= i < j < hops ==> (path[i].host, path[i].port) != (path[j].host, path[j].port))
    && (hops >= 1 ==> path[hops - 1].role == Exit)
    && (hops >= 2 ==> path[0].role == Entry)
    && (forall i :: 0 < i < hops - 1 ==> path[i].role == Middle)
  }

  /** A path is good exactly when it is trust-split. */
  lemma GoodIff(path: seq<Node>, hops: nat, pool: seq<Node>)
    ensures Good(path, hops, pool) <==> TrustSplit(path, hops, pool)
  {
    if Good(path, hops, pool) {
      forall i, j | 0 <= i < j < hops ensures Independent(path[i], path[j]) { }
    } else if TrustSplit(path, hops, pool) {
      forall i, j | 0 <= i < j < hops ensures Independent(path[i], path[j]) {
        assert path[i].operator != path[j].operator && path[i].jurisdiction != path[j].jurisdiction;
        assert path[i].id != path[j].id && (path[i].host, path[i].port) != (path[j].host, path[j].port);
      }
    }
  }

  ghost predicate Feasible(hops: nat, pool: seq<Node>) {
    exists path :: Good(path, hops, pool)
  }

  /** A complete path that starts with `prefix`. */
  ghost predicate Completes(path: seq<Node>, prefix: seq<Node>, hops: nat, pool: seq<Node>) {
    prefix <= path && Good(path, hops, pool)
  }

  // ---------------------------------------------------------------- the search

  /** The vector `chosen` that the recursive search shares. */
  class Stack {
    var items: seq<Node>

    constructor ()
      ensures items == []
    {
      items := [];
    }
  }

  /** What the search finds from `chosen` on when it goes through the candidates from the `i`th. */
  function FirstPath(candidates: seq<Node>, hops: nat, chosen: seq<Node>, i: nat): Option<seq<Node>>
    requires |chosen| <= hops && i <= |candidates|
    decreases hops - |chosen|, |candidates| - i
  {
    if |chosen| == hops then Some(chosen)
    else if i == |candidates| then None
    else if candidates[i].role != RoleFor(|chosen|, hops) || Clashes(chosen, candidates[i]) then
      FirstPath(candidates, hops, chosen, i + 1)
    else
      var deeper := FirstPath(candidates, hops, chosen + [candidates[i]], 0);
      if deeper.Some? then deeper else FirstPath(candidates, hops, chosen, i + 1)
  }

  /** `extend_path`: depth-first search with backtracking over one shared stack.  Success leaves a
      complete path that extends the old stack, the first in the order of the candidates; failure
      leaves the old stack and means that no complete path extends it. */
  method ExtendPath(candidates: seq<Node>, hops: nat, chosen: Stack) returns (found: bool)
    requires Partial(chosen.items, hops) && forall n :: n in chosen.items ==> n in candidates
    modifies chosen
    ensures found ==> Completes(chosen.items, old(chosen.items), hops, candidates)
    ensures !found ==> chosen.items == old(chosen.items)
    ensures !found ==> !exists path :: Completes(path, old(chosen.items), hops, candidates)
    ensures FirstPath(candidates, hops, old(chosen.items), 0) == if found then Some(chosen.items) else None
    ensures found ==> TrustSplit(chosen.items, hops, candidates)
    ensures !found ==> forall path :: old(chosen.items) <= path ==> !TrustSplit(path, hops, candidates)
    decreases hops - |chosen.items|
  {
    ghost var prefix := chosen.items;
    if |chosen.items| == hops {
      GoodIff(chosen.items, hops, candidates);
      return true;
    }
    var pos := RoleFor(|chosen.items|, hops);
    for i := 0 to |candidates|
      invariant chosen.items == prefix
      invariant FirstPath(candidates, hops, prefix, i) == FirstPath(candidates, hops, prefix, 0)
      invariant forall path :: Completes(path, prefix, hops, candidates) ==> path[|prefix|] !in candidates[..i]
    {
      var node := candidates[i];
      assert candidates[..i + 1] == candidates[..i] + [node];
      var clash := Clashes(chosen.items, node);
      if node.role != pos || clash {
        RefusedCandidate(prefix, node, hops, candidates);
        continue;
      }
      chosen.items := chosen.items + [node];
      var done := ExtendPath(candidates, hops, chosen);
      if done {
        return true;
      }
      chosen.items := chosen.items[..|chosen.items| - 1];
      ExhaustedCandidate(prefix, node, hops, candidates);
    }
    assert candidates[..|candidates|] == candidates;
    NextFromPool(prefix, hops, candidates);
    forall path | prefix <= path ensures !TrustSplit(path, hops, candidates) {
      GoodIff(path, hops, candidates);
      assert !Completes(path, prefix, hops, candidates);
    }
    return false;
  }

  /** The two `any` scans over the chosen nodes. */
  predicate Clashes(chosen: seq<Node>, node: Node) {
    exists c :: c in chosen && !Independent(c, node)
  }

  lemma NextFromPool(prefix: seq<Node>, hops: nat, pool: seq<Node>)
    requires |prefix| < hops
    ensures forall path :: Completes(path, prefix, hops, pool) ==> path[|prefix|] in pool
  {
    forall path | Completes(path, prefix, hops, pool) ensures path[|prefix|] in pool {
      assert path[|prefix|] in path;
    }
  }

  /** A candidate of the wrong role, or dependent on a chosen node, is in no completion. */
  lemma RefusedCandidate(prefix: seq<Node>, node: Node, hops: nat, pool: seq<Node>)
    requires |prefix| < hops
    requires node.role != RoleFor(|prefix|, hops) || Clashes(prefix, node)
    ensures forall path :: Completes(path, prefix, hops, pool) ==> path[|prefix|] != node
  {
    if Clashes(prefix, node) {
      var k :| 0 <= k < |prefix| && !Independent(prefix[k], node);
      forall path | Completes(path, prefix, hops, pool) ensures path[|prefix|] != node {
        assert Independent(path[k], path[|prefix|]);
      }
    }
  }

  /** When no completion extends `prefix + [node]`, none extends `prefix` with `node` next. */
  lemma ExhaustedCandidate(prefix: seq<Node>, node: Node, hops: nat, pool: seq<Node>)
    requires |prefix| < hops
    requires !exists path :: Completes(path, prefix + [node], hops, pool)
    ensures forall path :: Completes(path, prefix, hops, pool) ==> path[|prefix|] != node
  {
    forall path | Completes(path, prefix, hops, pool) ensures path[|prefix|] != node {
      assert path[|prefix|] == node ==> Completes(path, prefix + [node], hops, pool);
    }
  }

  // ---------------------------------------------------------------- the shuffle

  ghost predicate SameElements(a: seq<Node>, b: seq<Node>) {
    multiset(a) == multiset(b)
  }

  function Swap(s: seq<Node>, i: nat, j: nat): seq<Node>
    requires i < |s| && j < |s|
  {
    s[i := s[j]][j := s[i]]
  }

  /** The order after the slots from `i` down to one have been drawn. */
  function ShuffleFrom(s: seq<Node>, words: seq<nat>, i: nat): seq<Node>
    requires |words| == |s| && (i < |s| || i == 0)
    decreases i
  {
    if i == 0 then s else ShuffleFrom(Swap(s, i, words[i] % (i + 1)), words, i - 1)
  }

  /** The order `shuffle` leaves; without entropy it is left alone. */
  function Shuffled(s: seq<Node>, entropy: Option<seq<nat>>): seq<Node>
    requires entropy.Some? ==> |entropy.value| == |s|
  {
    if entropy.None? || |s| < 2 then s else ShuffleFrom(s, entropy.value, |s| - 1)
  }

  /** `shuffle`: Fisher-Yates from the top, driven by one random word per slot. */
  method Shuffle(items: array<Node>, entropy: Option<seq<nat>>)
    requires entropy.Some? ==> |entropy.value| == items.Length
    modifies items
    ensures items[..] == Shuffled(old(items[..]), entropy)
  {
    if items.Length < 2 || entropy.None? {
      return;
    }
    var i := items.Length - 1;
    while i >= 1
      invariant 0 <= i < items.Length
      invariant ShuffleFrom(items[..], entropy.value, i) == Shuffled(old(items[..]), entropy)
    {
      var j := entropy.value[i] % (i + 1);
      ghost var swapped := Swap(items[..], i, j);
      items[i], items[j] := items[j], items[i];
      assert items[..] == swapped;
      i := i - 1;
    }
  }

  lemma SwapSame(s: seq<Node>, i: nat, j: nat)
    requires i < |s| && j < |s|
    ensures SameElements(Swap(s, i, j), s)
  {
  }

  lemma {:induction false} ShuffleFromSame(s: seq<Node>, words: seq<nat>, i: nat)
    requires |words| == |s| && (i < |s| || i == 0)
    ensures SameElements(ShuffleFrom(s, words, i), s)
    decreases i
  {
    if i > 0 {
      SwapSame(s, i, words[i] % (i + 1));
      ShuffleFromSame(Swap(s, i, words[i] % (i + 1)), words, i - 1);
    }
  }

  /** Shuffling loses and invents nothing. */
  lemma ShuffledSame(s: seq<Node>, entropy: Option<seq<nat>>)
    requires entropy.Some? ==> |entropy.value| == |s|
    ensures SameElements(Shuffled(s, entropy), s)
  {
    if entropy.Some? && |s| >= 2 { ShuffleFromSame(s, entropy.value, |s| - 1); }
  }

  lemma ShuffleKeepsFeasible(hops: nat, a: seq<Node>, b: seq<Node>)
    requires SameElements(a, b)
    ensures Feasible(hops, a) <==> Feasible(hops, b)
  {
    forall n ensures n in a <==> n in b {
      assert n in multiset(a) <==> n in multiset(b);
    }
    forall path ensures Good(path, hops, a) <==> Good(path, hops, b) { }
  }

  // ---------------------------------------------------------------- the registry

  datatype SelectedHop = SelectedHop(host: string, port: nat, nodeId: string, role: Role)

  /** The wire view of a path, as `select_path` maps it. */
  function Hops(path: seq<Node>): (r: seq<SelectedHop>)
    ensures |r| == |path|
    ensures forall i :: 0 <= i < |path| ==>
      r[i] == SelectedHop(path[i].host, path[i].port, path[i].id, RoleFor(i, |path|))
  {
    seq(|path|, i requires 0 <= i < |path| => SelectedHop(path[i].host, path[i].port, path[i].id, RoleFor(i, |path|)))
  }

  /** Each hop shown is the endpoint, identity and role of the node it stands for. */
  ghost predicate Shows(shown: seq<SelectedHop>, path: seq<Node>) {
    |shown| == |path| && forall i :: 0 <= i < |path| ==>
      shown[i].host == path[i].host && shown[i].port == path[i].port && shown[i].nodeId == path[i].id && shown[i].role == path[i].role
  }

  lemma ShowsHops(path: seq<Node>, hops: nat, pool: seq<Node>)
    requires Good(path, hops, pool)
    ensures Shows(Hops(path), path)
  {
  }

  /** The nodes whose host is not marked down. */
  function Live(nodes: seq<Node>, dead: set<string>): (r: seq<Node>)
    ensures forall n :: n in r <==> n in nodes && n.host !in dead
  {
    if nodes == [] then []
    else if nodes[0].host in dead then Live(nodes[1..], dead)
    else [nodes[0]] + Live(nodes[1..], dead)
  }

  /** What `select_path` answers over these live nodes for these random words. */
  function Selected(live: seq<Node>, hops: nat, entropy: Option<seq<nat>>): Option<seq<SelectedHop>>
    requires entropy.Some? ==> |entropy.value| == |live|
  {
    var path := FirstPath(Shuffled(live, entropy), hops, [], 0);
    if path.Some? then Some(Hops(path.value)) else None
  }

  class Registry {
    const nodes: seq<Node>
    var dead: set<string>

    constructor (nodes: seq<Node>)
      ensures this.nodes == nodes && dead == {}
    {
      this.nodes := nodes;
      dead := {};
    }

    /** Exactly the nodes of this host leave the live pool. */
    method MarkDown(host: string)
      modifies this
      ensures dead == old(dead) + {host}
      ensures forall n :: n in Live(nodes, dead) <==> n in Live(nodes, old(dead)) && n.host != host
    {
      dead := dead + {host};
    }

    /** Exactly the nodes of this host join the live pool, if they were not in it. */
    method MarkUp(host: string)
      modifies this
      ensures dead == old(dead) - {host}
      ensures forall n :: n in Live(nodes, dead) <==> n in Live(nodes, old(dead)) || (n in nodes && n.host == host)
    {
      dead := dead - {host};
    }

    /** A path is returned exactly when the live nodes contain one, whatever the shuffle does. */
    method SelectPath(hops: nat, entropy: Option<seq<nat>>) returns (r: Option<seq<SelectedHop>>)
      requires entropy.Some? ==> |entropy.value| == |Live(nodes, dead)|
      ensures r.Some? <==> Feasible(hops, Live(nodes, dead))
      ensures r.Some? ==> exists path :: Good(path, hops, Live(nodes, dead)) && r.value == Hops(path)
      ensures r == Selected(Live(nodes, dead), hops, entropy)
      ensures r.Some? <==> exists path :: TrustSplit(path, hops, Live(nodes, dead))
      ensures r.Some? ==> exists path :: TrustSplit(path, hops, Live(nodes, dead)) && Shows(r.value, path)
    {
      forall path ensures Good(path, hops, Live(nodes, dead)) <==> TrustSplit(path, hops, Live(nodes, dead)) {
        GoodIff(path, hops, Live(nodes, dead));
      }
      var live := Live(nodes, dead);
      var candidates := new Node[|live|](i requires 0 <= i < |live| => live[i]);
      assert candidates[..] == live;
      Shuffle(candidates, entropy);
      var pool := candidates[..];
      ShuffledSame(live, entropy);
      ShuffleKeepsFeasible(hops, pool, live);
      var chosen := new Stack();
      var found := ExtendPath(pool, hops, chosen);
      if !found {
        assert forall path :: Good(path, hops, pool) ==> Completes(path, [], hops, pool);
        return None;
      }
      ghost var path := chosen.items;
      assert Good(path, hops, live) by {
        forall n | n in path ensures n in live { assert n in multiset(pool); }
      }
      r := Some(Hops(chosen.items));
      ShowsHops(path, hops, live);
    }
  }

  ghost predicate Avoids(path: seq<Node>, host: string) { forall n :: n in path ==> n.host != host }

  /** With a host marked down a request is served if and only if some path avoids that host. */
  lemma MarkDownIff(nodes: seq<Node>, dead: set<string>, host: string, hops: nat)
    ensures Feasible(hops, Live(nodes, dead + {host})) <==>
      exists path :: Good(path, hops, Live(nodes, dead)) && Avoids(path, host)
  {
    forall path
      ensures Good(path, hops, Live(nodes, dead + {host})) <==> Good(path, hops, Live(nodes, dead)) && Avoids(path, host)
    {
    }
  }

  /** Marking a host up never turns a served request into a refusal. */
  lemma MarkUpMonotone(nodes: seq<Node>, dead: set<string>, host: string, hops: nat)
    requires Feasible(hops, Live(nodes, dead))
    ensures Feasible(hops, Live(nodes, dead - {host}))
  {
    var path :| Good(path, hops, Live(nodes, dead));
    assert Good(path, hops, Live(nodes, dead - {host}));
  }

  // ---------------------------------------------------------------- every path can be chosen

  lemma Locate(s: seq<Node>, x: Node) returns (j: nat)
    requires x in s
    ensures j < |s| && s[j] == x
  {
    j :| 0 <= j < |s| && s[j] == x;
  }

  lemma InSame(a: seq<Node>, b: seq<Node>, x: Node)
    requires SameElements(a, b) && x in a
    ensures x in b
  {
    assert x in multiset(a);
  }

  lemma Cancel(a: multiset<Node>, b: multiset<Node>, x: Node)
    requires a + multiset{x} == b + multiset{x}
    ensures a == b
  {
    forall y ensures a[y] == b[y] {
      assert (a + multiset{x})[y] == (b + multiset{x})[y];
    }
  }

  /** From slot `n` on everything is in place, and below it are the right nodes. */
  ghost predicate Drawn(s: seq<Node>, target: seq<Node>, n: nat)
    requires |s| == |target| && n <= |s|
  {
    s[n..] == target[n..] && SameElements(s[..n], target[..n])
  }

  /** One draw puts the wanted node into slot `i` and leaves the slots above alone. */
  lemma DrawSlot(s: seq<Node>, target: seq<Node>, i: nat) returns (j: nat)
    requires |s| == |target| && i < |s| && Drawn(s, target, i + 1)
    ensures j <= i && Drawn(Swap(s, i, j), target, i)
  {
    assert target[..i + 1][i] == target[i];
    InSame(target[..i + 1], s[..i + 1], target[i]);
    j := Locate(s[..i + 1], target[i]);
    SwapPrefix(s, i, j);
    SwapSuffix(s, target, i, j);
    assert target[..i + 1] == target[..i] + [target[i]];
    Cancel(multiset(Swap(s, i, j)[..i]), multiset(target[..i]), target[i]);
  }

  lemma SwapSuffix(s: seq<Node>, target: seq<Node>, i: nat, j: nat)
    requires |s| == |target| && j <= i < |s| && s[i + 1..] == target[i + 1..] && s[j] == target[i]
    ensures Swap(s, i, j)[i] == target[i] && Swap(s, i, j)[i..] == target[i..]
  {
    var t := Swap(s, i, j);
    assert forall k :: i < k < |s| ==> t[k] == s[i + 1..][k - i - 1] == target[i + 1..][k - i - 1];
  }

  lemma SwapPrefix(s: seq<Node>, i: nat, j: nat)
    requires j <= i < |s|
    ensures multiset(Swap(s, i, j)[..i]) + multiset{Swap(s, i, j)[i]} == multiset(s[..i + 1])
  {
    var t := Swap(s, i, j);
    SwapSame(s[..i + 1], i, j);
    assert t[..i + 1] == Swap(s[..i + 1], i, j) && t[..i + 1] == t[..i] + [t[i]];
  }

  /** Any order can be drawn, with words that fit 64 bits. */
  lemma {:induction false} DrawFrom(s: seq<Node>, target: seq<Node>, i: nat) returns (words: seq<nat>)
    requires |s| == |target| && i < |s| && Drawn(s, target, i + 1)
    ensures |words| == |s| && ShuffleFrom(s, words, i) == target && forall k :: 0 <= k < |words| ==> words[k] < |s|
    decreases i
  {
    if i == 0 {
      words := seq(|s|, _ => 0);
      OneLeft(s, target);
    } else {
      var j := DrawSlot(s, target, i);
      var t := Swap(s, i, j);
      var front := DrawFrom(t, target, i - 1);
      words := front[i := j];
      ShuffleReads(t, front, words, i - 1);
      ShuffleSlot(s, words, i);
    }
  }

  lemma ShuffleSlot(s: seq<Node>, words: seq<nat>, i: nat)
    requires |words| == |s| && 0 < i < |s| && words[i] <= i
    ensures ShuffleFrom(s, words, i) == ShuffleFrom(Swap(s, i, words[i]), words, i - 1)
  {
    assert words[i] % (i + 1) == words[i];
  }

  lemma OneLeft(s: seq<Node>, target: seq<Node>)
    requires |s| == |target| > 0 && s[1..] == target[1..] && SameElements(s[..1], target[..1])
    ensures s == target
  {
    InSame(s[..1], target[..1], s[0]);
    assert s == [s[0]] + s[1..] && target == [target[0]] + target[1..];
  }

  lemma {:induction false} ShuffleReads(s: seq<Node>, words: seq<nat>, words': seq<nat>, i: nat)
    requires |words| == |words'| == |s| && i < |s| && forall k :: 0 <= k <= i ==> words[k] == words'[k]
    ensures ShuffleFrom(s, words, i) == ShuffleFrom(s, words', i)
    decreases i
  {
    if i > 0 { ShuffleReads(Swap(s, i, words[i] % (i + 1)), words, words', i - 1); }
  }

  /** Candidates that list a good path first make the search choose that path. */
  lemma {:induction false} ListedFirst(path: seq<Node>, rest: seq<Node>, hops: nat, k: nat, i: nat)
    requires Good(path, hops, path + rest) && i <= k <= hops
    ensures FirstPath(path + rest, hops, path[..k], i) == Some(path)
    decreases hops - k, k - i
  {
    var candidates := path + rest;
    if k == hops {
      assert path[..k] == path;
    } else if i < k {
      assert path[..k][i] == candidates[i] && candidates[i] in path[..k] && !Independent(candidates[i], candidates[i]);
      ListedFirst(path, rest, hops, k, i + 1);
    } else {
      assert candidates[k] == path[k] && path[..k + 1] == path[..k] + [path[k]];
      assert !Clashes(path[..k], path[k]);
      ListedFirst(path, rest, hops, k + 1, 0);
    }
  }

  /** What remains of the pool once the nodes of a path are taken out. */
  lemma {:induction false} TakeOut(pool: seq<Node>, path: seq<Node>) returns (rest: seq<Node>)
    requires forall i, j :: 0 <= i < j < |path| ==> path[i] != path[j]
    requires forall n :: n in path ==> n in pool
    ensures SameElements(pool, path + rest)
  {
    if path == [] {
      rest := pool;
      assert path + rest == pool;
    } else {
      var last, front := path[|path| - 1], path[..|path| - 1];
      assert path == front + [last] && last in path;
      var more := TakeOut(pool, front);
      InSame(pool, front + more, last);
      assert last !in front;
      var j := Locate(more, last);
      rest := more[..j] + more[j + 1..];
      MovedOver(front, more, j, last);
    }
  }

  lemma MovedOver(front: seq<Node>, more: seq<Node>, j: nat, last: Node)
    requires j < |more| && more[j] == last
    ensures SameElements(front + more, front + [last] + (more[..j] + more[j + 1..]))
  {
    assert more == more[..j] + [last] + more[j + 1..];
  }

  /** Nothing is ruled out by the order of the search: every good path over the live nodes is what
      some draw of random words selects. */
  lemma EveryPathSelectable(live: seq<Node>, path: seq<Node>, hops: nat) returns (words: seq<nat>)
    requires Good(path, hops, live)
    ensures |words| == |live| && (forall k :: 0 <= k < |words| ==> words[k] < |live|)
    ensures Selected(live, hops, Some(words)) == Some(Hops(path))
  {
    var rest := TakeOut(live, path);
    ListedFirst(path, rest, hops, 0, 0);
    assert path[..0] == [];
    words := DrawAll(live, path + rest);
  }

  lemma DrawAll(s: seq<Node>, target: seq<Node>) returns (words: seq<nat>)
    requires SameElements(s, target)
    ensures |words| == |s| && Shuffled(s, Some(words)) == target && forall k :: 0 <= k < |words| ==> words[k] < |s|
  {
    assert |s| == |multiset(s)| == |multiset(target)| == |target|;
    if |s| < 2 {
      words := seq(|s|, _ => 0);
      if |s| == 1 {
        assert s[..1] == s && target[..1] == target;
        OneLeft(s, target);
      }
    } else {
      assert s[..|s| - 1 + 1] == s && target[..|s| - 1 + 1] == target;
      words := DrawFrom(s, target, |s| - 1);
    }
  }

  // ---------------------------------------------------------------- neighbour binding

  type Ip = nat

  datatype Neighbours = Neighbours(previous: Option<Ip>, next: Option<(Ip, nat)>)

  datatype BindError = NotIpv4(host: string) | RoleOrder

  datatype BindResult = Bound(neighbours: seq<Neighbours>) | Refused(error: BindError)

  /** The first half of `attach_grants`: one pass over the hops that pairs each with the address
      before it and the endpoint after it.  `ipv4` is the strict address parser. */
  method BindNeighbours(selected: seq<SelectedHop>, ipv4: string -> Option<Ip>) returns (r: BindResult)
    ensures r.Bound? <==> forall i :: 0 <= i < |selected| ==> Fault(selected, i, ipv4) == None
    ensures r.Bound? ==>
      && |r.neighbours| == |selected|
      && forall i :: 0 <= i < |selected| ==> NeighboursParse(selected, i, ipv4) && r.neighbours[i] == Around(selected, i, ipv4)
    ensures r.Refused? ==> exists i :: 0 <= i < |selected| && FirstFault(selected, i, ipv4, r.error)
    ensures r.Bound? <==> InOrder(selected) && (|selected| >= 2 ==> forall i :: 0 <= i < |selected| ==> ipv4(selected[i].host).Some?)
    ensures r.Refused? && r.error.NotIpv4? ==>
      ipv4(r.error.host).None? && exists i :: 0 <= i < |selected| && selected[i].host == r.error.host
    ensures r.Refused? && r.error.RoleOrder? ==> !InOrder(selected)
  {
    BindsIff(selected, ipv4);
    var bound: seq<Neighbours> := [];
    for i := 0 to |selected|
      invariant |bound| == i
      invariant forall k :: 0 <= k < i ==> Fault(selected, k, ipv4) == None
      invariant forall k :: 0 <= k < i ==> NeighboursParse(selected, k, ipv4)
      invariant forall k :: 0 <= k < i ==> bound[k] == Around(selected, k, ipv4)
    {
      var previous := None;
      if i > 0 {
        previous := ipv4(selected[i - 1].host);
        if previous.None? {
          assert FirstFault(selected, i, ipv4, NotIpv4(selected[i - 1].host));
          return Refused(NotIpv4(selected[i - 1].host));
        }
      }
      var next := None;
      if i + 1 < |selected| {
        var ip := ipv4(selected[i + 1].host);
        if ip.None? {
          assert FirstFault(selected, i, ipv4, NotIpv4(selected[i + 1].host));
          return Refused(NotIpv4(selected[i + 1].host));
        }
        next := Some((ip.value, selected[i + 1].port));
      }
      match (selected[i].role, previous, next) {
        case (Entry, None, Some(_)) => bound := bound + [Neighbours(None, next)];
        case (Middle, Some(_), Some(_)) => bound := bound + [Neighbours(previous, next)];
        case (Exit, _, None) => bound := bound + [Neighbours(previous, None)];
        case _ =>
          assert FirstFault(selected, i, ipv4, RoleOrder);
          return Refused(RoleOrder);
      }
      assert Fault(selected, i, ipv4) == None;
    }
    r := Bound(bound);
  }

  /** An entry first, an exit last, middles in between; a lone hop is an exit. */
  ghost predicate InOrder(selected: seq<SelectedHop>) {
    && (|selected| >= 1 ==> selected[|selected| - 1].role == Exit)
    && (|selected| >= 2 ==> selected[0].role == Entry)
    && (forall i :: 0 < i < |selected| - 1 ==> selected[i].role == Middle)
  }

  lemma BindsIff(selected: seq<SelectedHop>, ipv4: string -> Option<Ip>)
    ensures (forall i :: 0 <= i < |selected| ==> Fault(selected, i, ipv4) == None) <==>
      InOrder(selected) && (|selected| >= 2 ==> forall i :: 0 <= i < |selected| ==> ipv4(selected[i].host).Some?)
    ensures (forall i :: 0 <= i < |selected| ==> RoleFits(selected, i)) <==> InOrder(selected)
  {
    RolesFit(selected);
    if forall i :: 0 <= i < |selected| ==> Fault(selected, i, ipv4) == None {
      forall i | 0 <= i < |selected| ensures RoleFits(selected, i) && (|selected| >= 2 ==> ipv4(selected[i].host).Some?) {
        assert Fault(selected, i, ipv4) == None;
        if i + 1 < |selected| {
          assert Fault(selected, i + 1, ipv4) == None;
        } else if i > 0 {
          assert Fault(selected, i - 1, ipv4) == None;
        }
      }
    }
  }

  lemma RolesFit(selected: seq<SelectedHop>)
    ensures (forall i :: 0 <= i < |selected| ==> RoleFits(selected, i)) <==> InOrder(selected)
  {
    if forall i :: 0 <= i < |selected| ==> RoleFits(selected, i) {
      if selected != [] { assert RoleFits(selected, 0) && RoleFits(selected, |selected| - 1); }
      forall i | 0 < i < |selected| - 1 ensures selected[i].role == Middle { assert RoleFits(selected, i); }
    }
  }

  /** What is wrong with hop `i`: the host before it, then the host after it, then its role. */
  function Fault(selected: seq<SelectedHop>, i: nat, ipv4: string -> Option<Ip>): Option<BindError>
    requires i < |selected|
  {
    if i > 0 && ipv4(selected[i - 1].host).None? then Some(NotIpv4(selected[i - 1].host))
    else if i + 1 < |selected| && ipv4(selected[i + 1].host).None? then Some(NotIpv4(selected[i + 1].host))
    else if !RoleFits(selected, i) then Some(RoleOrder)
    else None
  }

  /** `error` is what is wrong with hop `i`, and nothing is wrong with an earlier one. */
  predicate FirstFault(selected: seq<SelectedHop>, i: nat, ipv4: string -> Option<Ip>, error: BindError)
    requires i < |selected|
  {
    Fault(selected, i, ipv4) == Some(error) && forall k :: 0 <= k < i ==> Fault(selected, k, ipv4) == None
  }

  predicate RoleFits(selected: seq<SelectedHop>, i: nat)
    requires i < |selected|
  {
    selected[i].role == RoleFor(i, |selected|)
  }

  predicate NeighboursParse(selected: seq<SelectedHop>, i: nat, ipv4: string -> Option<Ip>)
    requires i < |selected|
  {
    && (i > 0 ==> ipv4(selected[i - 1].host).Some?)
    && (i + 1 < |selected| ==> ipv4(selected[i + 1].host).Some?)
  }

  /** The address before hop `i` and the endpoint after it. */
  function Around(selected: seq<SelectedHop>, i: nat, ipv4: string -> Option<Ip>): Neighbours
    requires i < |selected| && NeighboursParse(selected, i, ipv4)
  {
    Neighbours(if i == 0 then None else ipv4(selected[i - 1].host),
               if i + 1 == |selected| then None
               else Some((ipv4(selected[i + 1].host).value, selected[i + 1].port)))
  }

  /** Over a selected path with IPv4 hosts the binding cannot fail: every role fits and every
      neighbour parses.  Consecutive hops name each other, only the first has no previous and only
      the last has no next. */
  lemma SelectedNeighbours(path: seq<Node>, hops: nat, pool: seq<Node>, ipv4: string -> Option<Ip>, i: nat)
    requires Good(path, hops, pool) && i < hops
    requires forall n :: n in path ==> ipv4(n.host).Some?
    ensures Fault(Hops(path), i, ipv4) == None && NeighboursParse(Hops(path), i, ipv4)
    ensures var around := Around(Hops(path), i, ipv4);
      && (around.previous == None <==> i == 0) && (around.next == None <==> i == hops - 1)
      && (i > 0 ==> around.previous == ipv4(path[i - 1].host))
      && (i + 1 < hops ==> around.next == Some((ipv4(path[i + 1].host).value, path[i + 1].port)))
  {
    if i > 0 { assert path[i - 1] in path; }
    if i + 1 < hops { assert path[i + 1] in path; }
  }

  /** Every live host is an IPv4 address. */
  ghost predicate LiveParse(registry: Registry, ipv4: string -> Option<Ip>)
    reads registry
  {
    forall n :: n in Live(registry.nodes, registry.dead) ==> ipv4(n.host).Some?
  }

  datatype Prepared = NoPath | Unbindable(error: BindError) | Ready(hops: seq<SelectedHop>, neighbours: seq<Neighbours>)

  /** The steps of `redeem_logic` before the commit when a grant signer is configured: select a path,
      then bind its neighbours.  With IPv4 hosts only the lack of a path can stop it. */
  method PreparePath(registry: Registry, hops: nat, entropy: Option<seq<nat>>, ipv4: string -> Option<Ip>) returns (r: Prepared)
    requires entropy.Some? ==> |entropy.value| == |Live(registry.nodes, registry.dead)|
    ensures r.NoPath? <==> !Feasible(hops, Live(registry.nodes, registry.dead))
    ensures LiveParse(registry, ipv4) ==> !r.Unbindable?
    ensures r.Ready? ==>
      && Selected(Live(registry.nodes, registry.dead), hops, entropy) == Some(r.hops) && |r.neighbours| == |r.hops| == hops
      && forall i :: 0 <= i < hops ==> NeighboursParse(r.hops, i, ipv4) && r.neighbours[i] == Around(r.hops, i, ipv4)
  {
    var selected := registry.SelectPath(hops, entropy);
    if selected.None? {
      return NoPath;
    }
    ghost var live := Live(registry.nodes, registry.dead);
    ghost var path :| Good(path, hops, live) && selected.value == Hops(path);
    if LiveParse(registry, ipv4) {
      forall i | 0 <= i < hops ensures Fault(selected.value, i, ipv4) == None {
        SelectedNeighbours(path, hops, live, ipv4, i);
      }
    }
    var bound := BindNeighbours(selected.value, ipv4);
    r := if bound.Bound? then Ready(selected.value, bound.neighbours) else Unbindable(bound.error);
  }
}
