/**
 * The in-memory world (`server/game/state.py`, class `GameState`): the
 * player registry, the locations, the undirected location graph, the game
 * phase and the world flags. Every public method runs under one lock in the
 * source, so each is modelled as one atomic method.
 */
module World {
  import opened Common
  import opened Graph
  import opened Players
  import opened Locations
  import opened Changes

  /** `config.MAX_PLAYERS`. */
  const MaxPlayers: nat := 4
  const StartRoom: string := "endless_metro"
  /** The description of a location the story data does not know. */
  const PlaceholderDescription: string := "Пустое место."

  datatype Phase = Lobby | Active

  /** The element tables of a story, by fear kind and then by element category. */
  type Elements = map<string, map<string, seq<string>>>

  /** The part of a story entry the core reads. */
  datatype Story = Story(
    initialDescription: Option<string>,
    useWorldFlags: bool,
    details: Elements,
    events: Elements)

  /** `story_data.get(name, {}).get('initial_description', 'Пустое место.')`. */
  function InitialDescription(stories: map<string, Story>, name: string): (r: string)
    ensures name !in stories ==> r == PlaceholderDescription
    ensures name in stories && stories[name].initialDescription.Some? ==> r == stories[name].initialDescription.value
    ensures name in stories && stories[name].initialDescription.None? ==> r == PlaceholderDescription
  {
    if name in stories && stories[name].initialDescription.Some? then stories[name].initialDescription.value
    else PlaceholderDescription
  }

  /** `config.DEFAULT_FEAR_WEIGHTS`: the four fear kinds, equally weighted. */
  function DefaultFearWeights(): map<string, int>
  {
    map["primitive" := 25, "atmospheric" := 25, "dissonance" := 25, "uncertainty" := 25]
  }

  /** The `world_flags` entry of the statistics: the flags, or "Нет" when there are none. */
  datatype FlagsView = NoFlags | Flags(flags: map<string, string>)

  datatype Stats = Stats(playerCount: nat, locationCount: nat, connectionCount: nat, phase: Phase, worldFlags: FlagsView)

  /** The sum of the neighbour-set sizes, each edge counted from both ends. */
  ghost function DegreeSum(g: Adjacency): nat
    decreases |g|
  {
    if g == map[] then 0
    else
      var k :| k in g;
      |g[k]| + DegreeSum(g - {k})
  }

  /** The sum does not depend on which node is taken first. */
  lemma {:induction false} DegreeSumRemove(g: Adjacency, k: string)
    requires k in g
    ensures DegreeSum(g) == |g[k]| + DegreeSum(g - {k})
    decreases |g|
  {
    var j :| j in g && DegreeSum(g) == |g[j]| + DegreeSum(g - {j});
    if j != k {
      var h := g - {j};
      assert k in h;
      DegreeSumRemove(h, k);
      var hk := g - {k};
      assert j in hk;
      DegreeSumRemove(hk, j);
      assert h - {k} == hk - {j};
    }
  }

  /** Replacing one neighbour set changes the sum by the difference of sizes. */
  lemma DegreeSumUpdate(g: Adjacency, k: string, s: set<string>)
    requires k in g
    ensures DegreeSum(g[k := s]) + |g[k]| == DegreeSum(g) + |s|
  {
    DegreeSumRemove(g, k);
    DegreeSumRemove(g[k := s], k);
    assert g[k := s] - {k} == g - {k};
  }

  /** A new, isolated location adds no connection. */
  lemma EnsureNodeDegreeSum(g: Adjacency, n: string)
    ensures DegreeSum(EnsureNode(g, n)) == DegreeSum(g)
  {
    if n !in g {
      var r := g[n := {}];
      DegreeSumRemove(r, n);
      assert r - {n} == g;
    }
  }

  /**
   * The reported connection count counts undirected edges: creating an edge
   * between two different locations that were not joined adds one, and
   * destroying an existing one removes one.
   */
  lemma ConnectionCountOnEdit(g: Adjacency, a: string, b: string)
    requires a in g && b in g && a != b && Symmetric(g)
    ensures b !in g[a] ==> DegreeSum(AddEdge(g, a, b)) / 2 == DegreeSum(g) / 2 + 1
    ensures b in g[a] ==> DegreeSum(RemoveEdge(g, a, b)) / 2 + 1 == DegreeSum(g) / 2
  {
    var g1 := g[a := g[a] + {b}];
    DegreeSumUpdate(g, a, g[a] + {b});
    DegreeSumUpdate(g1, b, g1[b] + {a});
    var h1 := g[a := g[a] - {b}];
    DegreeSumUpdate(g, a, g[a] - {b});
    DegreeSumUpdate(h1, b, h1[b] - {a});
    if b !in g[a] {
      assert a !in g[b];
      assert |g[a] + {b}| == |g[a]| + 1;
      assert |g1[b] + {a}| == |g[b]| + 1;
      assert AddEdge(g, a, b) == g1[b := g1[b] + {a}];
    } else {
      assert a in g[b];
      assert |g[a] - {b}| == |g[a]| - 1;
      assert |h1[b] - {a}| == |g[b]| - 1;
      assert RemoveEdge(g, a, b) == h1[b := h1[b] - {a}];
    }
  }

  /** Every name the graph mentions, as a node or as a neighbour. */
  ghost function Names(g: Adjacency): set<string>
  {
    g.Keys + (set x, y | x in g && y in g[x] :: y)
  }

  /**
   * The inner loop of the search: `for neighbor in ns: if neighbor not in
   * visited: queue.append(neighbor)`, in some iteration order of the set.
   */
  method EnqueueUnvisited(ns: set<string>, visited: set<string>, queue: seq<string>) returns (q: seq<string>)
    ensures |queue| <= |q| && q[..|queue|] == queue
    ensures forall i :: |queue| <= i < |q| ==> q[i] in ns && q[i] !in visited
    ensures forall y :: y in ns && y !in visited ==> y in q[|queue|..]
  {
    q := queue;
    var pending := ns;
    while pending != {}
      invariant pending <= ns
      invariant |queue| <= |q| && q[..|queue|] == queue
      invariant forall i :: |queue| <= i < |q| ==> q[i] in ns && q[i] !in visited
      invariant forall y :: y in ns && y !in visited && y !in pending ==> y in q[|queue|..]
      decreases pending
    {
      var y :| y in pending;
      pending := pending - {y};
      if y !in visited {
        assert (q + [y])[|queue|..] == q[|queue|..] + [y];
        q := q + [y];
      }
    }
  }

  /** The names the search enqueues from a reachable `current` are reachable names of the graph. */
  lemma FrontierGrows(g: Adjacency, start: string, current: string, q0: seq<string>, q: seq<string>)
    requires Reachable(g, start, current)
    requires forall i :: 0 <= i < |q0| ==> q0[i] in Names(g) && Reachable(g, start, q0[i])
    requires |q0| <= |q| && q[..|q0|] == q0
    requires forall i :: |q0| <= i < |q| ==> current in g && q[i] in g[current]
    ensures forall i :: 0 <= i < |q| ==> q[i] in Names(g) && Reachable(g, start, q[i])
  {
    forall i | 0 <= i < |q| ensures q[i] in Names(g) && Reachable(g, start, q[i]) {
      if i < |q0| {
        assert q[i] == q[..|q0|][i] == q0[i];
      } else {
        ReachableExtend(g, start, current, q[i]);
      }
    }
  }

  /** The graph with an isolated node added for each new name in `ns`. */
  function WithNodes(g: Adjacency, ns: set<string>): (r: Adjacency)
    ensures r.Keys == g.Keys + ns
    ensures forall x :: x in r ==> r[x] == if x in g then g[x] else {}
  {
    map x | x in g.Keys + ns :: if x in g then g[x] else {}
  }

  /** The names of a prefix one update longer. */
  lemma LocationUpdateNamesStep(us: seq<LocationUpdate>, i: int)
    requires 0 <= i < |us|
    ensures LocationUpdateNames(us[..i + 1]) ==
              LocationUpdateNames(us[..i]) + (if Truthy(us[i].locationName) then {us[i].locationName.value} else {})
  {
    assert forall k :: 0 <= k < i ==> us[..i + 1][k] == us[..i][k];
    assert us[..i + 1][i] == us[i];
  }

  /** One location update on the description map: a truthy name gets the given description, or keeps or receives its initial one. */
  function Describe(stories: map<string, Story>, m: map<string, string>, u: LocationUpdate): map<string, string>
  {
    if !Truthy(u.locationName) then m
    else
      var n := u.locationName.value;
      m[n := if u.description.Some? then u.description.value else if n in m then m[n] else InitialDescription(stories, n)]
  }

  /** The description map after the updates `us`, in order. */
  function DescribeAll(stories: map<string, Story>, m: map<string, string>, us: seq<LocationUpdate>): map<string, string>
    decreases |us|
  {
    if us == [] then m else Describe(stories, DescribeAll(stories, m, us[..|us| - 1]), us[|us| - 1])
  }

  /**
   * What the updates leave: the old names and the truthy updated ones, and on
   * each the description of the last update naming it with one, else the
   * description it had, else its initial one.
   */
  lemma {:induction false} DescribeAllAt(stories: map<string, Story>, m: map<string, string>, us: seq<LocationUpdate>)
    ensures DescribeAll(stories, m, us).Keys == m.Keys + LocationUpdateNames(us)
    ensures forall n :: n in DescribeAll(stories, m, us) ==>
              DescribeAll(stories, m, us)[n] ==
                match LastDescription(us, n)
                case Some(d) => d
                case None => if n in m then m[n] else InitialDescription(stories, n)
    decreases |us|
  {
    if us != [] {
      var front := us[..|us| - 1];
      var u := us[|us| - 1];
      DescribeAllAt(stories, m, front);
      var r0 := DescribeAll(stories, m, front);
      var r := DescribeAll(stories, m, us);
      assert r == Describe(stories, r0, u);
      LocationUpdateNamesStep(us, |us| - 1);
      assert us[..|us|] == us;
      forall n | n in r
        ensures r[n] == match LastDescription(us, n)
                        case Some(d) => d
                        case None => if n in m then m[n] else InitialDescription(stories, n)
      {
        if !(n != "" && u.locationName == Some(n) && u.description.Some?) {
          assert LastDescription(us, n) == LastDescription(front, n);
        }
      }
    }
  }

  /** Adding the nodes one more name at a time. */
  lemma WithNodesStep(g: Adjacency, ns: set<string>, n: string)
    ensures WithNodes(g, ns + {n}) == EnsureNode(WithNodes(g, ns), n)
  {
  }

  /** Adding isolated nodes keeps the graph symmetric. */
  lemma WithNodesSymmetric(g: Adjacency, ns: set<string>)
    requires Symmetric(g)
    ensures Symmetric(WithNodes(g, ns))
  {
  }

  /**
   * The description map once the names `ns` exist too: a name already
   * described keeps its text, a new one gets its initial description.
   */
  function WithInitial(stories: map<string, Story>, m: map<string, string>, ns: set<string>): (r: map<string, string>)
    ensures r.Keys == m.Keys + ns
    ensures forall n :: n in m ==> r[n] == m[n]
    ensures forall n :: n in ns && n !in m ==> r[n] == InitialDescription(stories, n)
  {
    map n | n in m.Keys + ns :: if n in m then m[n] else InitialDescription(stories, n)
  }

  /** A map that keeps every text of `m` and gives each other name its initial description is `m` extended to its own names. */
  lemma WithInitialOf(stories: map<string, Story>, m: map<string, string>, r: map<string, string>)
    requires m.Keys <= r.Keys
    requires forall n :: n in m ==> r[n] == m[n]
    requires forall n :: n in r && n !in m ==> r[n] == InitialDescription(stories, n)
    ensures r == WithInitial(stories, m, r.Keys)
  {
  }

  /** Creating more names after some were created is creating them all at once. */
  lemma WithInitialTwice(stories: map<string, Story>, m: map<string, string>, ns1: set<string>, ns2: set<string>)
    requires ns1 <= ns2
    ensures WithInitial(stories, WithInitial(stories, m, ns1), ns2) == WithInitial(stories, m, ns2)
  {
  }

  /** The destinations of the moves in `us` made by players named in `known`. */
  function MoveTargets(us: seq<PlayerUpdate>, known: set<string>): (r: set<string>)
    ensures forall n :: n in r <==> exists i :: 0 <= i < |us| && Moves(us[i], known, n)
  {
    set i | 0 <= i < |us| && us[i].username.Some? && us[i].username.value in known && Truthy(us[i].moveToLocation)
      :: us[i].moveToLocation.value
  }

  /** Every location of `l0` is still there, the same object, in `l1`. */
  ghost predicate Extends<T>(l0: map<string, T>, l1: map<string, T>)
  {
    forall n :: n in l0 ==> n in l1 && l1[n] == l0[n]
  }

  lemma ExtendsTrans<T>(l0: map<string, T>, l1: map<string, T>, l2: map<string, T>)
    requires Extends(l0, l1) && Extends(l1, l2)
    ensures Extends(l0, l2)
  {
  }

  /** The update `pu` moves a known player to `n`. */
  predicate Moves(pu: PlayerUpdate, known: set<string>, n: string)
  {
    pu.username.Some? && pu.username.value in known && pu.moveToLocation == Some(n) && n != ""
  }

  /** The inventory the updates naming `u` leave, applied in order; each adds, then removes. */
  function InventoryAfter(inv: seq<string>, us: seq<PlayerUpdate>, u: string): seq<string>
    decreases |us|
  {
    if us == [] then inv
    else
      var before := InventoryAfter(inv, us[..|us| - 1], u);
      var pu := us[|us| - 1];
      if pu.username == Some(u) then WithoutItems(WithItems(before, pu.inventoryAdd), pu.inventoryRemove) else before
  }

  /** An inventory without duplicates keeps none through any sequence of updates. */
  lemma {:induction false} InventoryAfterNoDuplicates(inv: seq<string>, us: seq<PlayerUpdate>, u: string)
    requires NoDuplicates(inv)
    ensures NoDuplicates(InventoryAfter(inv, us, u))
    decreases |us|
  {
    if us != [] {
      InventoryAfterNoDuplicates(inv, us[..|us| - 1], u);
      var pu := us[|us| - 1];
      if pu.username == Some(u) {
        var added := WithItems(InventoryAfter(inv, us[..|us| - 1], u), pu.inventoryAdd);
        SubsequenceNoDuplicates(WithoutItems(added, pu.inventoryRemove), added);
      }
    }
  }

  /** The status list the last status update naming `u` sets, or `st` when none does. */
  function StatusAfter(st: seq<string>, us: seq<PlayerUpdate>, u: string): seq<string>
    decreases |us|
  {
    if us == [] then st
    else
      var pu := us[|us| - 1];
      if pu.username == Some(u) && pu.statusUpdate.Some? then pu.statusUpdate.value
      else StatusAfter(st, us[..|us| - 1], u)
  }

  /** The location the last truthy move naming `u` leads to, or `loc` when none does. */
  function LocationAfter(loc: Option<string>, us: seq<PlayerUpdate>, u: string): Option<string>
    decreases |us|
  {
    if us == [] then loc
    else
      var pu := us[|us| - 1];
      if pu.username == Some(u) && Truthy(pu.moveToLocation) then pu.moveToLocation
      else LocationAfter(loc, us[..|us| - 1], u)
  }

  /** The number of updates in `us` that move a player named in `known`. */
  function MoveCount(us: seq<PlayerUpdate>, known: set<string>): nat
    decreases |us|
  {
    if us == [] then 0
    else
      var pu := us[|us| - 1];
      MoveCount(us[..|us| - 1], known) +
      if pu.username.Some? && pu.username.value in known && Truthy(pu.moveToLocation) then 1 else 0
  }

  /** The part of a player record the player updates touch. */
  datatype PlayerView = PlayerView(inventory: seq<string>, status: seq<string>, locationName: Option<string>)

  /** One player update on the record it names: add items, remove items, replace the status, move on a truthy target. */
  function EditView(v: PlayerView, pu: PlayerUpdate): PlayerView
  {
    PlayerView(
      WithoutItems(WithItems(v.inventory, pu.inventoryAdd), pu.inventoryRemove),
      if pu.statusUpdate.Some? then pu.statusUpdate.value else v.status,
      if Truthy(pu.moveToLocation) then pu.moveToLocation else v.locationName)
  }

  /** One player update on the registry's records; an update naming nobody registered is skipped. */
  function UpdatePlayers(m: map<string, PlayerView>, pu: PlayerUpdate): map<string, PlayerView>
  {
    if pu.username.Some? && pu.username.value in m then m[pu.username.value := EditView(m[pu.username.value], pu)] else m
  }

  /** The records after the updates `us`, in order. */
  function UpdatePlayersAll(m: map<string, PlayerView>, us: seq<PlayerUpdate>): map<string, PlayerView>
    decreases |us|
  {
    if us == [] then m else UpdatePlayers(UpdatePlayersAll(m, us[..|us| - 1]), us[|us| - 1])
  }

  /** The entry a player update adds to the list of moves: the player and where it came from. */
  function MoveEntry(m: map<string, PlayerView>, pu: PlayerUpdate): seq<(string, Option<string>)>
  {
    if pu.username.Some? && pu.username.value in m && Truthy(pu.moveToLocation) then
      [(pu.username.value, m[pu.username.value].locationName)]
    else []
  }

  /** The moves the updates `us` make, in order, each with the location the player left. */
  function MoveLog(m: map<string, PlayerView>, us: seq<PlayerUpdate>): seq<(string, Option<string>)>
    decreases |us|
  {
    if us == [] then [] else MoveLog(m, us[..|us| - 1]) + MoveEntry(UpdatePlayersAll(m, us[..|us| - 1]), us[|us| - 1])
  }

  /** The locations a list of moves left. */
  function Departures(log: seq<(string, Option<string>)>): (r: set<string>)
    ensures forall n :: n in r <==> exists k :: 0 <= k < |log| && log[k].1 == Some(n)
  {
    set k | 0 <= k < |log| && log[k].1.Some? :: log[k].1.value
  }

  /** The locations one player update can change: none, or the one it moves its player to and the one the player leaves. */
  function StepTouched(m: map<string, PlayerView>, pu: PlayerUpdate): set<string>
  {
    if pu.username.Some? && pu.username.value in m && Truthy(pu.moveToLocation) then
      {pu.moveToLocation.value} +
      (if m[pu.username.value].locationName.Some? then {m[pu.username.value].locationName.value} else {})
    else {}
  }

  /** The touched locations of one update are its destination and the departures its move entry records. */
  lemma StepTouchedMeans(m: map<string, PlayerView>, pu: PlayerUpdate)
    ensures forall n :: n in StepTouched(m, pu) <==> Moves(pu, m.Keys, n) || n in Departures(MoveEntry(m, pu))
  {
    var log := MoveEntry(m, pu);
    if log != [] {
      assert log[0].1 == m[pu.username.value].locationName;
    }
  }

  /**
   * The records the updates leave agree, player by player, with the
   * inventory, status and location each player's own updates give.
   */
  lemma {:induction false} UpdatePlayersAllAt(m: map<string, PlayerView>, us: seq<PlayerUpdate>)
    ensures UpdatePlayersAll(m, us).Keys == m.Keys
    ensures forall u {:trigger UpdatePlayersAll(m, us)[u]} :: u in m ==>
              UpdatePlayersAll(m, us)[u] ==
                PlayerView(InventoryAfter(m[u].inventory, us, u), StatusAfter(m[u].status, us, u), LocationAfter(m[u].locationName, us, u))
    decreases |us|
  {
    if us != [] {
      UpdatePlayersAllAt(m, us[..|us| - 1]);
    }
  }

  /** One move is logged for each update that moves a registered player. */
  lemma {:induction false} MoveLogCount(m: map<string, PlayerView>, us: seq<PlayerUpdate>)
    ensures |MoveLog(m, us)| == MoveCount(us, m.Keys)
    ensures forall k :: 0 <= k < |MoveLog(m, us)| ==> MoveLog(m, us)[k].0 in m
    decreases |us|
  {
    if us != [] {
      MoveLogCount(m, us[..|us| - 1]);
      UpdatePlayersAllAt(m, us[..|us| - 1]);
    }
  }

  /** The records and moves the first `i + 1` updates leave, from what the first `i` left and the update at `i`. */
  lemma UpdateStep(v0: map<string, PlayerView>, us: seq<PlayerUpdate>, i: int)
    requires 0 <= i < |us|
    ensures UpdatePlayersAll(v0, us[..i + 1]) == UpdatePlayers(UpdatePlayersAll(v0, us[..i]), us[i])
    ensures MoveLog(v0, us[..i + 1]) == MoveLog(v0, us[..i]) + MoveEntry(UpdatePlayersAll(v0, us[..i]), us[i])
  {
    assert us[..i + 1][..i] == us[..i];
  }

  /** The graph after the first `i + 1` updates' moves, from the graph after the first `i`. */
  lemma TargetsStep(g0: Adjacency, us: seq<PlayerUpdate>, i: int, known: set<string>)
    requires 0 <= i < |us|
    ensures WithNodes(g0, MoveTargets(us[..i + 1], known)) ==
              if us[i].username.Some? && us[i].username.value in known && Truthy(us[i].moveToLocation)
              then EnsureNode(WithNodes(g0, MoveTargets(us[..i], known)), us[i].moveToLocation.value)
              else WithNodes(g0, MoveTargets(us[..i], known))
  {
    MoveTargetsStep(us, i, known);
    if us[i].username.Some? && us[i].username.value in known && Truthy(us[i].moveToLocation) {
      WithNodesStep(g0, MoveTargets(us[..i], known), us[i].moveToLocation.value);
    }
  }

  /** The move targets of a prefix one update longer. */
  lemma MoveTargetsStep(us: seq<PlayerUpdate>, i: int, known: set<string>)
    requires 0 <= i < |us|
    ensures MoveTargets(us[..i + 1], known) ==
              MoveTargets(us[..i], known) +
              (if us[i].username.Some? && us[i].username.value in known && Truthy(us[i].moveToLocation) then {us[i].moveToLocation.value} else {})
  {
    assert forall k :: 0 <= k < i ==> us[..i + 1][k] == us[..i][k];
    assert us[..i + 1][i] == us[i];
  }

  /** A second update of the same key overrides the first. */
  /** Taking out a name that is neither present nor pending changes neither. */
  lemma WithoutAbsent(present: set<string>, pending: map<string, string>, u: string)
    requires u !in present && u !in pending
    ensures present - {u} == present && pending - {u} == pending
  {
  }

  lemma UpdateTwice<T>(m: map<string, T>, k: string, a: T, b: T)
    ensures m[k := a][k := b] == m[k := b]
  {
  }

  /** Naming the moves commutes with appending one. */
  lemma MoveNamesAppend(moved: seq<(Player, Option<string>)>, e: (Player, Option<string>))
    ensures MoveNames(moved + [e]) == MoveNames(moved) + [(e.0.username, e.1)]
  {
  }

  /** Appending a registered player to a list of registered moves keeps every move registered. */
  lemma RegisteredAppend(ps: map<string, Player>, moved: seq<(Player, Option<string>)>, e: (Player, Option<string>))
    requires forall k {:trigger moved[k]} :: 0 <= k < |moved| ==> moved[k].0.username in ps && ps[moved[k].0.username] == moved[k].0
    requires e.0.username in ps && ps[e.0.username] == e.0
    ensures forall k {:trigger (moved + [e])[k]} :: 0 <= k < |moved + [e]| ==>
              (moved + [e])[k].0.username in ps && ps[(moved + [e])[k].0.username] == (moved + [e])[k].0
  {
    forall k | 0 <= k < |moved + [e]| ensures (moved + [e])[k].0.username in ps && ps[(moved + [e])[k].0.username] == (moved + [e])[k].0 {
      if k < |moved| {
        assert (moved + [e])[k] == moved[k];
      }
    }
  }

  /** The names and origins of a list of moves. */
  function MoveNames(moved: seq<(Player, Option<string>)>): (r: seq<(string, Option<string>)>)
    ensures |r| == |moved| && forall k :: 0 <= k < |moved| ==> r[k] == (moved[k].0.username, moved[k].1)
  {
    seq(|moved|, k requires 0 <= k < |moved| => (moved[k].0.username, moved[k].1))
  }

  /**
   * The search's loop invariant: everything visited or queued is a reachable
   * name of the graph, the start is visited or queued, and every neighbour of
   * a visited node is visited or queued.
   */
  ghost predicate Frontier(g: Adjacency, start: string, visited: set<string>, queue: seq<string>)
  {
    && visited <= Names(g)
    && (forall i :: 0 <= i < |queue| ==> queue[i] in Names(g) && Reachable(g, start, queue[i]))
    && (start in visited || start in queue)
    && (forall x :: x in visited ==> Reachable(g, start, x))
    && (forall x, y :: x in visited && x in g && y in g[x] ==> y in visited || y in queue)
  }

  /**
   * One turn of the `while queue` loop: pop the head; if it is new, visit
   * it and enqueue its unvisited neighbours.
   */
  method SearchStep(g: Adjacency, start: string, visited: set<string>, queue: seq<string>)
    returns (visited': set<string>, queue': seq<string>)
    requires queue != [] && Frontier(g, start, visited, queue)
    ensures Frontier(g, start, visited', queue')
    ensures queue[0] !in visited ==> visited' == visited + {queue[0]}
    ensures queue[0] in visited ==> visited' == visited && queue' == queue[1..]
    ensures |Names(g) - visited'| < |Names(g) - visited| || (visited' == visited && |queue'| < |queue|)
  {
    var current := queue[0];
    visited', queue' := visited, queue[1..];
    if current !in visited {
      visited' := visited + {current};
      if current in g {
        queue' := EnqueueUnvisited(g[current], visited', queue');
      }
      FrontierVisit(g, start, visited, queue, queue');
      assert Names(g) - visited' < Names(g) - visited;
    } else {
      FrontierPop(g, start, visited, queue);
    }
  }

  /** Popping a name already visited keeps the invariant. */
  lemma FrontierPop(g: Adjacency, start: string, visited: set<string>, queue: seq<string>)
    requires queue != [] && queue[0] in visited && Frontier(g, start, visited, queue)
    ensures Frontier(g, start, visited, queue[1..])
  {
    var q := queue[1..];
    forall i | 0 <= i < |q| ensures q[i] in Names(g) && Reachable(g, start, q[i]) {
      assert q[i] == queue[i + 1];
    }
    forall x, y | x in visited && x in g && y in g[x] ensures y in visited || y in q {
      if y !in visited {
        var k :| 0 <= k < |queue| && queue[k] == y;
        assert k != 0;
        assert q[k - 1] == y;
      }
    }
    if start !in visited {
      var k :| 0 <= k < |queue| && queue[k] == start;
      assert q[k - 1] == start;
    }
  }

  /** Visiting the new head and queueing its unvisited neighbours keeps the invariant. */
  lemma FrontierVisit(g: Adjacency, start: string, visited: set<string>, queue: seq<string>, q': seq<string>)
    requires queue != [] && queue[0] !in visited && Frontier(g, start, visited, queue)
    requires queue[0] !in g ==> q' == queue[1..]
    requires queue[0] in g ==>
               && |queue[1..]| <= |q'| && q'[..|queue[1..]|] == queue[1..]
               && (forall i :: |queue[1..]| <= i < |q'| ==> q'[i] in g[queue[0]])
               && (forall y :: y in g[queue[0]] && y !in visited + {queue[0]} ==> y in q'[|queue[1..]|..])
    ensures Frontier(g, start, visited + {queue[0]}, q')
  {
    var c, q0 := queue[0], queue[1..];
    var v := visited + {c};
    assert Reachable(g, start, c);
    if c in g {
      FrontierGrows(g, start, c, q0, q');
    } else {
      forall i | 0 <= i < |q0| ensures q0[i] in Names(g) && Reachable(g, start, q0[i]) {
        assert q0[i] == queue[i + 1];
      }
    }
    assert forall i :: 0 <= i < |q0| ==> q'[i] == q0[i] == queue[i + 1];
    forall x, y | x in v && x in g && y in g[x] ensures y in v || y in q' {
      if x == c {
        if y !in v {
          var k :| |q0| <= k < |q'| && q'[k] == y;
        }
      } else if y !in v {
        var k :| 0 <= k < |queue| && queue[k] == y;
        assert k != 0;
        assert q'[k - 1] == y;
      }
    }
    if start !in v {
      var k :| 0 <= k < |queue| && queue[k] == start;
      assert q'[k - 1] == start;
    }
  }

  /** The arrival lines `add_player` writes for `us`, in order. */
  function JoinEntries(us: seq<string>): (r: seq<string>)
    ensures |r| == |us| && forall k :: 0 <= k < |us| ==> r[k] == JoinEntry(us[k])
  {
    seq(|us|, k requires 0 <= k < |us| => JoinEntry(us[k]))
  }

  lemma JoinEntriesAppend(us: seq<string>, u: string)
    ensures JoinEntries(us + [u]) == JoinEntries(us) + [JoinEntry(u)]
  {
  }

  /** The part of the graph whose nodes lie in `s`. */
  function Restrict(g: Adjacency, s: set<string>): (r: Adjacency)
    ensures r.Keys == g.Keys * s && forall k :: k in r ==> r[k] == g[k]
  {
    map k | k in g && k in s :: g[k]
  }

  class GameState {
    var phase: Phase
    var players: map<string, Player>
    var locations: map<string, Location>
    var graph: Adjacency
    const storyData: map<string, Story>
    var fearWeights: map<string, int>
    var storyInjectionTurns: int
    var immersionTurns: int
    var maxHistoryCharLength: int
    var worldFlags: map<string, string>

    /** Registry keys are usernames and location keys are location names. */
    ghost predicate Named()
      reads this`players, this`locations
    {
      && (forall u {:trigger players[u].username} :: u in players ==> players[u].username == u)
      && (forall n {:trigger locations[n].name} :: n in locations ==> locations[n].name == n)
    }

    /** The graph has a node for each location, and every edge is listed from both ends. */
    ghost predicate Connected()
      reads this`graph, this`locations
    {
      graph.Keys == locations.Keys && Symmetric(graph)
    }

    /** Only players present at a location have an action pending there. */
    ghost predicate PendingPresent()
      reads this`locations, locations.Values`playersPresent, locations.Values`pendingActions
    {
      forall n {:trigger locations[n].pendingActions} :: n in locations ==> locations[n].pendingActions.Keys <= locations[n].playersPresent
    }

    /** Every registered player other than those in `skip` that names a location is present in it. */
    ghost predicate PlayersPlaced(skip: set<string>)
      reads this`players, this`locations, players.Values`locationName, locations.Values`playersPresent
    {
      forall u {:trigger players[u].locationName} :: u in players && u !in skip && players[u].locationName.Some? ==>
        var n := players[u].locationName.value;
        n != "" && n in locations && u in locations[n].playersPresent
    }

    /** Everyone present at a location is a registered player outside `skip` naming that location. */
    ghost predicate PresentPlaced(skip: set<string>)
      reads this`players, this`locations, players.Values`locationName, locations.Values`playersPresent
    {
      forall n, u {:trigger u in locations[n].playersPresent} :: n in locations && u in locations[n].playersPresent ==>
        u !in skip && u in players && players[u].locationName == Some(n)
    }

    /** The world's invariant: every player stands exactly where it says it is. */
    ghost predicate Valid()
      reads this`players, this`locations, this`graph, players.Values`locationName,
            locations.Values`playersPresent, locations.Values`pendingActions
    {
      Named() && Connected() && PendingPresent() && PlayersPlaced({}) && PresentPlaced({})
    }

    /**
     * The invariant while the registered player `w` is between locations: it
     * is present nowhere, whatever location it names, and everyone else is
     * placed.
     */
    ghost predicate Detached(w: string)
      reads this`players, this`locations, this`graph, players.Values`locationName,
            locations.Values`playersPresent, locations.Values`pendingActions
    {
      Named() && Connected() && PendingPresent() && w in players && PlayersPlaced({w}) && PresentPlaced({w})
    }

    /** The location object named `n`, as a frame. */
    function LocAt(n: string): set<Location>
      reads this`locations
    {
      if n in locations then {locations[n]} else {}
    }

    /** The existing location a location update names, as a frame; none for a falsy name. */
    function UpdatedLoc(name: Option<string>): set<Location>
      reads this`locations
    {
      if Truthy(name) && name.value in locations then {locations[name.value]} else {}
    }

    /** The location object the player `u` names, as a frame. */
    function PlayerLoc(u: string): set<Location>
      reads this`players, this`locations, players.Values`locationName
    {
      if u in players && players[u].locationName.Some? && players[u].locationName.value in locations then
        {locations[players[u].locationName.value]}
      else {}
    }

    /** Those present at `n`; nobody for a location still to be created. */
    function PresentAt(n: string): set<string>
      reads this`locations, locations.Values`playersPresent
    {
      if n in locations then locations[n].playersPresent else {}
    }

    function PendingAt(n: string): map<string, string>
      reads this`locations, locations.Values`pendingActions
    {
      if n in locations then locations[n].pendingActions else map[]
    }

    /** The history of `n`, or the one line a location created now would start with. */
    function HistoryAt(n: string): seq<string>
      reads this`locations, locations.Values`conversationHistory
    {
      if n in locations then locations[n].conversationHistory else [WorldEntry(InitialDescription(storyData, n))]
    }

    constructor (storyData: map<string, Story>)
      ensures Valid()
      ensures phase == Lobby && players == map[] && locations == map[] && graph == map[] && worldFlags == map[]
      ensures this.storyData == storyData && fearWeights == DefaultFearWeights()
      ensures storyInjectionTurns == 4 && immersionTurns == 2 && maxHistoryCharLength == 8192
    {
      phase := Lobby;
      players := map[];
      locations := map[];
      graph := map[];
      this.storyData := storyData;
      fearWeights := DefaultFearWeights();
      storyInjectionTurns := 4;
      immersionTurns := 2;
      maxHistoryCharLength := 8192;
      worldFlags := map[];
    }

    /** Adding a fresh, empty location under a new name keeps the invariant. */
    twostate lemma NewLocationKeepsValid(n: string)
      requires old(Valid()) && n !in old(locations) && n in locations
      requires locations == old(locations)[n := locations[n]] && graph == old(graph)[n := {}]
      requires players == old(players) && fresh(locations[n])
      requires locations[n].name == n && locations[n].playersPresent == {} && locations[n].pendingActions == map[]
      requires forall u :: u in players ==> players[u].locationName == old(players[u].locationName)
      requires forall m :: m in old(locations) ==>
                 locations[m].playersPresent == old(locations[m].playersPresent) &&
                 locations[m].pendingActions == old(locations[m].pendingActions)
      ensures Valid()
    {
      EnsureNodeSymmetric(old(graph), n);
      assert graph == EnsureNode(old(graph), n);
    }

    /**
     * `_get_or_create_location_unsafe`: an existing location is returned and
     * nothing changes; otherwise a fresh location built from the story data
     * and an isolated graph node are added.
     */
    method GetOrCreateLocation(n: string) returns (loc: Location)
      requires Valid()
      modifies this`locations, this`graph
      ensures Valid()
      ensures n in locations && loc == locations[n]
      ensures graph == EnsureNode(old(graph), n)
      ensures n in old(locations) ==> locations == old(locations) && graph == old(graph)
      ensures n !in old(locations) ==>
                && fresh(loc) && loc.name == n && loc.IsInitial(InitialDescription(storyData, n))
                && locations == old(locations)[n := loc]
      ensures loc.playersPresent == old(PresentAt(n)) && loc.pendingActions == old(PendingAt(n))
      ensures loc.conversationHistory == old(HistoryAt(n))
      ensures forall u {:trigger players[u]} :: u in players ==> unchanged(players[u])
      ensures forall m {:trigger old(locations)[m]} :: m in old(locations) ==> unchanged(old(locations)[m])
    {
      if n !in locations {
        loc := AddLocation(n);
      } else {
        loc := locations[n];
      }
    }

    /** A fresh location built from the story data, and an isolated graph node, under a new name. */
    method AddLocation(n: string) returns (loc: Location)
      requires Valid() && n !in locations
      modifies this`locations, this`graph
      ensures Valid()
      ensures fresh(loc) && loc.name == n && loc.IsInitial(InitialDescription(storyData, n))
      ensures locations == old(locations)[n := loc] && graph == old(graph)[n := {}]
    {
      loc := new Location(n, InitialDescription(storyData, n));
      locations := locations[n := loc];
      graph := graph[n := {}];
      NewLocationKeepsValid(n);
    }

    /**
     * What leaving does to a location: the player is no longer present nor
     * pending there, and, when `left`, the location records its leaving.
     */
    twostate predicate OnlyLeft(l: Location, u: string, left: bool)
      reads l
    {
      && l.playersPresent == old(l.playersPresent) - {u}
      && l.pendingActions == old(l.pendingActions) - {u}
      && l.conversationHistory == old(l.conversationHistory) + (if left then [LeaveEntry(u)] else [])
      && l.description == old(l.description)
      && l.turnCounter == old(l.turnCounter)
      && l.usedStoryElements == old(l.usedStoryElements)
    }

    /**
     * The first half of `_move_player_to_location_unsafe`, also the location
     * half of `remove_player`: the player leaves the location it names, if
     * that location exists.
     */
    method Detach(p: Player)
      requires Valid() && p.username in players && players[p.username] == p
      modifies PlayerLoc(p.username)`playersPresent, PlayerLoc(p.username)`pendingActions,
               PlayerLoc(p.username)`conversationHistory
      ensures Detached(p.username)
      ensures forall m {:trigger locations[m]} :: m in locations ==> OnlyLeft(locations[m], p.username, p.locationName == Some(m))
    {
      var from := p.locationName;
      if from.Some? && from.value != "" && from.value in locations {
        locations[from.value].RemovePlayer(p.username);
      }
    }

    /** The second half of a move: the detached player enters `loc` and names it. */
    method Attach(p: Player, loc: Location)
      requires Detached(p.username) && players[p.username] == p
      requires loc.name in locations && locations[loc.name] == loc && loc.name != ""
      modifies p`locationName, loc`playersPresent, loc`conversationHistory
      ensures Valid()
      ensures p.locationName == Some(loc.name)
      ensures loc.playersPresent == old(loc.playersPresent) + {p.username}
      ensures loc.conversationHistory == old(loc.conversationHistory) + [JoinEntry(p.username)]
      ensures forall m {:trigger locations[m]} :: m in locations && m != loc.name ==> locations[m] != loc && unchanged(locations[m])
    {
      p.locationName := Some(loc.name);
      loc.AddPlayer(p.username);
      forall m | m in locations && m != loc.name ensures locations[m] != loc {
        assert locations[m].name == m;
      }
    }

    /**
     * `add_player`: refused with "full" when the registry is at capacity
     * (checked first) and with "taken" for a known name; otherwise the player
     * is registered, and during a game placed in the start room.
     */
    method AddPlayer(p: Player) returns (ok: bool, reason: string)
      requires Valid()
      modifies this`players, this`locations, this`graph, p`locationName,
               LocAt(StartRoom)`playersPresent, LocAt(StartRoom)`conversationHistory
      ensures Valid()
      ensures |old(players)| >= MaxPlayers ==> !ok && reason == "full"
      ensures |old(players)| < MaxPlayers && p.username in old(players) ==> !ok && reason == "taken"
      ensures |old(players)| < MaxPlayers && p.username !in old(players) ==> ok && reason == "success"
      ensures !ok ==> players == old(players) && locations == old(locations) && graph == old(graph)
      ensures !ok ==> unchanged(p) && unchanged(old(LocAt(StartRoom)))
      ensures ok ==> players == old(players)[p.username := p]
      ensures ok && phase == Lobby ==>
                && p.locationName == None
                && locations == old(locations) && graph == old(graph)
                && unchanged(old(LocAt(StartRoom)))
      ensures ok && phase == Active ==>
                && p.locationName == Some(StartRoom)
                && graph == EnsureNode(old(graph), StartRoom)
                && StartRoom in locations
                && locations[StartRoom].playersPresent == old(PresentAt(StartRoom)) + {p.username}
                && locations[StartRoom].conversationHistory == old(HistoryAt(StartRoom)) + [JoinEntry(p.username)]
                && (StartRoom in old(locations) ==> locations == old(locations))
                && (StartRoom !in old(locations) ==> fresh(locations[StartRoom]))
    {
      var u := p.username;
      if |players| >= MaxPlayers {
        return false, "full";
      }
      if u in players {
        return false, "taken";
      }
      if phase == Active {
        EnterStartRoom(p);
      } else {
        EnterLobby(p);
      }
      return true, "success";
    }

    /** Registration during a game: the player enters the start room, created on demand. */
    method EnterStartRoom(p: Player)
      requires Valid() && p.username !in players
      modifies this`players, this`locations, this`graph, p`locationName,
               LocAt(StartRoom)`playersPresent, LocAt(StartRoom)`conversationHistory
      ensures Valid()
      ensures players == old(players)[p.username := p]
      ensures p.locationName == Some(StartRoom)
      ensures graph == EnsureNode(old(graph), StartRoom)
      ensures StartRoom in locations && locations == old(locations)[StartRoom := locations[StartRoom]]
      ensures locations[StartRoom].playersPresent == old(PresentAt(StartRoom)) + {p.username}
      ensures locations[StartRoom].conversationHistory == old(HistoryAt(StartRoom)) + [JoinEntry(p.username)]
      ensures StartRoom in old(locations) ==> locations == old(locations)
      ensures StartRoom !in old(locations) ==> fresh(locations[StartRoom])
    {
      var loc := GetOrCreateLocation(StartRoom);
      Register(p);
      Attach(p, loc);
    }

    /** Registration in the lobby: the player names no location. */
    method EnterLobby(p: Player)
      requires Valid() && p.username !in players
      modifies this`players, p`locationName
      ensures Valid() && players == old(players)[p.username := p] && p.locationName == None
    {
      assert p !in players.Values;
      p.locationName := None;
      players := players[p.username := p];
    }

    /** Registration alone: the new player is present nowhere yet. */
    method Register(p: Player)
      requires Valid() && p.username !in players
      modifies this`players
      ensures Detached(p.username) && players == old(players)[p.username := p]
    {
      assert p !in players.Values;
      players := players[p.username := p];
    }

    /**
     * `remove_player`: an unknown name changes nothing and yields None;
     * otherwise the player leaves the registry and the location it names, and
     * that name is returned.
     */
    method RemovePlayer(u: string) returns (last: Option<string>)
      requires Valid()
      modifies this`players, PlayerLoc(u)`playersPresent, PlayerLoc(u)`pendingActions,
               PlayerLoc(u)`conversationHistory
      ensures Valid()
      ensures u !in old(players) ==> last == None && players == old(players) && unchanged(old(PlayerLoc(u)))
      ensures u in old(players) ==> players == old(players) - {u} && last == old(players[u].locationName)
      ensures last.Some? ==> last.value in locations
      ensures forall m {:trigger locations[m]} :: m in locations ==> OnlyLeft(locations[m], u, last == Some(m))
    {
      if u !in players {
        return None;
      }
      var p := players[u];
      last := p.locationName;
      Detach(p);
      Unregister(u);
    }

    /** A detached player leaves the registry. */
    method Unregister(u: string)
      requires Detached(u)
      modifies this`players
      ensures Valid() && players == old(players) - {u}
    {
      players := players - {u};
    }

    /**
     * `_move_player_to_location_unsafe`: the player leaves the location it
     * names (if that exists), the destination is created on demand, the
     * player enters it and names it, and exactly one `(player, old name)`
     * pair is recorded.
     */
    method MovePlayerToLocation(p: Player, n: string, movedIn: seq<(Player, Option<string>)>)
      returns (movedOut: seq<(Player, Option<string>)>)
      requires Valid() && p.username in players && players[p.username] == p && n != ""
      modifies this`locations, this`graph, p`locationName,
               locations.Values`playersPresent, locations.Values`pendingActions,
               locations.Values`conversationHistory
      ensures Valid()
      ensures movedOut == movedIn + [(p, old(p.locationName))]
      ensures p.locationName == Some(n)
      ensures graph == EnsureNode(old(graph), n)
      ensures n in locations && locations == old(locations)[n := locations[n]]
      ensures n in old(locations) ==> locations == old(locations)
      ensures n !in old(locations) ==>
                && fresh(locations[n]) && locations[n].name == n
                && locations[n].description == InitialDescription(storyData, n)
                && locations[n].turnCounter == 0 && locations[n].usedStoryElements == {}
      ensures locations[n].playersPresent == old(PresentAt(n)) + {p.username}
      ensures locations[n].pendingActions == old(PendingAt(n)) - {p.username}
      ensures locations[n].conversationHistory ==
                old(HistoryAt(n)) + (if old(p.locationName) == Some(n) then [LeaveEntry(p.username)] else []) +
                [JoinEntry(p.username)]
      ensures forall m {:trigger locations[m]} :: m in old(locations) && m != n ==> OnlyLeft(locations[m], p.username, old(p.locationName) == Some(m))
      ensures forall u {:trigger players[u]} :: u in players && players[u] != p ==> unchanged(players[u])
    {
      var from := p.locationName;
      var loc := GetOrCreateLocation(n);
      Relocate(p, loc);
      movedOut := movedIn + [(p, from)];
    }

    /** A move into the existing location `loc`. */
    method Relocate(p: Player, loc: Location)
      requires Valid() && p.username in players && players[p.username] == p
      requires loc.name in locations && locations[loc.name] == loc && loc.name != ""
      modifies p`locationName, loc`playersPresent, loc`conversationHistory,
               PlayerLoc(p.username)`playersPresent, PlayerLoc(p.username)`pendingActions,
               PlayerLoc(p.username)`conversationHistory
      ensures Valid()
      ensures p.locationName == Some(loc.name)
      ensures loc.playersPresent == old(loc.playersPresent) + {p.username}
      ensures loc.pendingActions == old(loc.pendingActions) - {p.username}
      ensures loc.conversationHistory ==
                old(loc.conversationHistory) + (if old(p.locationName) == Some(loc.name) then [LeaveEntry(p.username)] else []) +
                [JoinEntry(p.username)]
      ensures forall m {:trigger locations[m]} :: m in locations && m != loc.name ==> OnlyLeft(locations[m], p.username, old(p.locationName) == Some(m))
      ensures forall u {:trigger players[u]} :: u in players && players[u] != p ==> unchanged(players[u])
    {
      Detach(p);
      Attach(p, loc);
    }

    /**
     * `get_connected_component`: a breadth-first search from `start` over
     * the graph as it stands. A start that is not a node yields `{start}`.
     */
    method GetConnectedComponent(start: string) returns (r: set<string>)
      ensures start in r
      ensures start !in graph ==> r == {start}
      ensures forall x :: x in r <==> Reachable(graph, start, x)
    {
      var g := graph;
      if start !in g {
        forall x ensures Reachable(g, start, x) <==> x == start {
          ReachableFromMissing(g, start, x);
        }
        return {start};
      }
      var visited: set<string> := {};
      var queue: seq<string> := [start];
      assert IsWalk(g, [start]);
      while queue != []
        invariant Frontier(g, start, visited, queue)
        decreases |Names(g) - visited|, |queue|
      {
        visited, queue := SearchStep(g, start, visited, queue);
      }
      r := visited;
      assert Closed(g, r);
      forall x | Reachable(g, start, x) ensures x in r {
        var w :| IsWalk(g, w) && w[0] == start && w[|w| - 1] == x;
        ClosedHoldsWalkEnd(g, r, w);
      }
    }

    /** The description `n` has, or would get when created. */
    function DescriptionBefore(n: string): string
      reads this`locations, locations.Values`description
    {
      if n in locations then locations[n].description else InitialDescription(storyData, n)
    }

    /** Every location's description, by name. */
    function Descriptions(): (r: map<string, string>)
      reads this`locations, locations.Values`description
      ensures r.Keys == locations.Keys
      ensures forall n {:trigger r[n]} :: n in locations ==> r[n] == locations[n].description
    {
      map n | n in locations :: locations[n].description
    }

    /**
     * The `location_updates` loop of `apply_turn_changes`: each truthy name
     * is created on demand, and a given description replaces the old one.
     */
    method ApplyLocationUpdates(us: seq<LocationUpdate>)
      requires Valid()
      modifies this`locations, this`graph, locations.Values`description
      ensures Valid()
      ensures locations.Keys == old(locations).Keys + LocationUpdateNames(us)
      ensures graph == WithNodes(old(graph), LocationUpdateNames(us))
      ensures Descriptions() == DescribeAll(storyData, old(Descriptions()), us)
      ensures forall n {:trigger old(locations[n])} :: n in old(locations) ==> locations[n] == old(locations[n])
      ensures forall n {:trigger locations[n]} :: n in locations && n !in old(locations) ==> fresh(locations[n])
      ensures forall n {:trigger old(locations[n])} :: n in old(locations) ==>
                var l: Location := old(locations[n]); unchanged(l`playersPresent, l`pendingActions, l`conversationHistory)
    {
      ghost var g0, l0, d0 := graph, locations, Descriptions();
      var i := 0;
      while i < |us|
        invariant 0 <= i <= |us|
        invariant Valid()
        invariant graph == WithNodes(g0, LocationUpdateNames(us[..i]))
        invariant Descriptions() == DescribeAll(storyData, d0, us[..i])
        invariant forall n {:trigger l0[n]} :: n in l0 ==> n in locations && locations[n] == l0[n]
        invariant forall n {:trigger locations[n]} :: n in locations && n !in l0 ==> fresh(locations[n])
      {
        LocationUpdateStep(us, i, g0, d0);
        i := i + 1;
      }
      assert us[..i] == us;
    }

    /** The update at `i`, with the graph and the descriptions carried from the first `i` updates to the first `i + 1`. */
    method LocationUpdateStep(us: seq<LocationUpdate>, i: nat, ghost g0: Adjacency, ghost d0: map<string, string>)
      requires Valid() && i < |us|
      requires graph == WithNodes(g0, LocationUpdateNames(us[..i]))
      requires Descriptions() == DescribeAll(storyData, d0, us[..i])
      modifies this`locations, this`graph, UpdatedLoc(us[i].locationName)`description
      ensures Valid()
      ensures graph == WithNodes(g0, LocationUpdateNames(us[..i + 1]))
      ensures Descriptions() == DescribeAll(storyData, d0, us[..i + 1])
      ensures forall n {:trigger old(locations[n])} :: n in old(locations) ==> n in locations && locations[n] == old(locations[n])
      ensures forall n {:trigger locations[n]} :: n in locations && n !in old(locations) ==> fresh(locations[n])
    {
      assert us[..i + 1][..i] == us[..i];
      LocationUpdateNamesStep(us, i);
      if Truthy(us[i].locationName) {
        WithNodesStep(g0, LocationUpdateNames(us[..i]), us[i].locationName.value);
      }
      ApplyLocationUpdate(us[i]);
    }

    /**
     * One location update: a truthy name is created on demand and takes the
     * given description; no other location changes.
     */
    method ApplyLocationUpdate(u: LocationUpdate)
      requires Valid()
      modifies this`locations, this`graph, UpdatedLoc(u.locationName)`description
      ensures Valid()
      ensures Descriptions() == Describe(storyData, old(Descriptions()), u)
      ensures graph == if Truthy(u.locationName) then EnsureNode(old(graph), u.locationName.value) else old(graph)
      ensures forall n {:trigger old(locations[n])} :: n in old(locations) ==> n in locations && locations[n] == old(locations[n])
      ensures forall n {:trigger locations[n]} :: n in locations && n !in old(locations) ==>
                fresh(locations[n]) && locations[n].IsBlank(InitialDescription(storyData, n))
    {
      if u.locationName.Some? && u.locationName.value != "" {
        if u.description.Some? {
          DescribeLocation(u.locationName.value, u.description.value);
        } else {
          var _ := GetOrCreateDescribed(u.locationName.value);
        }
      }
    }

    /** A location update with a description: `n` is created on demand, then takes the description `d`. */
    method DescribeLocation(n: string, d: string)
      requires Valid()
      modifies this`locations, this`graph, LocAt(n)`description
      ensures Valid()
      ensures Descriptions() == old(Descriptions())[n := d]
      ensures graph == EnsureNode(old(graph), n)
      ensures forall m {:trigger old(locations[m])} :: m in old(locations) ==> m in locations && locations[m] == old(locations[m])
      ensures forall m {:trigger locations[m]} :: m in locations && m !in old(locations) ==>
                fresh(locations[m]) && locations[m].IsBlank(InitialDescription(storyData, m))
    {
      ghost var d0 := Descriptions();
      ghost var before := DescriptionBefore(n);
      var loc := GetOrCreateDescribed(n);
      ghost var l1 := locations;
      SetDescription(loc, d);
      UpdateTwice(d0, n, before, d);
      assert locations == l1;
    }

    /** `GetOrCreateLocation`, seen through the description map: only `n` may gain an entry, its initial description. */
    method GetOrCreateDescribed(n: string) returns (loc: Location)
      requires Valid()
      modifies this`locations, this`graph
      ensures Valid()
      ensures n in locations && loc == locations[n] && loc.name == n
      ensures graph == EnsureNode(old(graph), n)
      ensures Descriptions() == old(Descriptions())[n := old(DescriptionBefore(n))]
      ensures forall m {:trigger old(locations[m])} :: m in old(locations) ==> m in locations && locations[m] == old(locations[m])
      ensures forall m {:trigger locations[m]} :: m in locations && m !in old(locations) ==>
                fresh(locations[m]) && locations[m].IsBlank(InitialDescription(storyData, m))
    {
      if n in locations {
        loc := locations[n];
        assert Descriptions() == old(Descriptions())[n := old(DescriptionBefore(n))];
      } else {
        ghost var d0 := Descriptions();
        loc := AddLocation(n);
        assert Descriptions() == d0[n := loc.description];
      }
    }

    /** A new description for the location `loc` is; nothing else changes. */
    method SetDescription(loc: Location, d: string)
      requires Valid() && loc.name in locations && locations[loc.name] == loc
      modifies loc`description
      ensures Valid()
      ensures Descriptions() == old(Descriptions())[loc.name := d]
    {
      loc.description := d;
      forall n | n in locations && n != loc.name ensures locations[n].description == old(locations[n].description) {
        assert locations[n].name == n;
      }
    }

    /**
     * The `connection_updates` loop: screened updates create both
     * locations on demand, then CREATE joins them (and reports a new
     * connection) and DESTROY separates them.
     */
    method ApplyConnectionUpdates(us: seq<ConnectionUpdate>) returns (created: bool)
      requires Valid()
      modifies this`locations, this`graph
      ensures Valid()
      ensures graph == ApplyConnections(old(graph), us)
      ensures created <==> exists i :: 0 <= i < |us| && CreatesEdge(us[i])
      ensures old(locations).Keys <= locations.Keys
      ensures forall n :: n in old(locations) ==> locations[n] == old(locations[n])
      ensures forall n :: n in locations && n !in old(locations) ==>
                fresh(locations[n]) && locations[n].IsInitial(InitialDescription(storyData, n))
      ensures forall n {:trigger old(locations[n])} :: n in old(locations) ==> var l: Location := old(locations[n]); unchanged(l)
    {
      ghost var g0, l0 := graph, locations;
      created := false;
      var i := 0;
      while i < |us|
        invariant 0 <= i <= |us|
        invariant Valid()
        invariant graph == ApplyConnections(g0, us[..i])
        invariant created <==> exists k :: 0 <= k < i && CreatesEdge(us[k])
        invariant Extends(l0, locations)
        invariant forall n :: n in locations && n !in l0 ==>
                    fresh(locations[n]) && locations[n].IsInitial(InitialDescription(storyData, n))
      {
        ghost var l1 := locations;
        created := ConnectionUpdateStep(us, i, g0, l0, created);
        forall n | n in locations && n !in l0 && n in l1 ensures fresh(locations[n]) {
          assert locations[n] == l1[n];
        }
        i := i + 1;
      }
      assert us[..i] == us;
    }

    /** The update at `i`, with the graph, the flag and the locations carried from the first `i` updates to the first `i + 1`. */
    method ConnectionUpdateStep(us: seq<ConnectionUpdate>, i: nat, ghost g0: Adjacency, ghost l0: map<string, Location>, createdIn: bool)
      returns (createdOut: bool)
      requires Valid() && i < |us|
      requires graph == ApplyConnections(g0, us[..i])
      requires Extends(l0, locations)
      requires forall n :: n in locations && n !in l0 ==> locations[n].IsInitial(InitialDescription(storyData, n))
      modifies this`locations, this`graph
      ensures Valid()
      ensures graph == ApplyConnections(g0, us[..i + 1])
      ensures createdOut == (createdIn || CreatesEdge(us[i]))
      ensures Extends(old(locations), locations) && Extends(l0, locations)
      ensures forall n :: n in locations && n !in l0 ==> locations[n].IsInitial(InitialDescription(storyData, n))
      ensures forall n :: n in locations && n !in old(locations) ==> fresh(locations[n])
    {
      ghost var l1, gb := locations, graph;
      label Before:
      var c := ApplyConnectionUpdate(us[i]);
      ApplyConnectionsStep(g0, us, i, gb, graph);
      ExtendsTrans(l0, l1, locations);
      forall n | n in locations && n !in l0 && n in l1 ensures locations[n].IsInitial(InitialDescription(storyData, n)) {
        assert unchanged@Before(l1[n]);
      }
      createdOut := createdIn || c;
    }

    /** One connection update, as `ApplyConnection` states it; the result says whether it was a CREATE. */
    method ApplyConnectionUpdate(u: ConnectionUpdate) returns (created: bool)
      requires Valid()
      modifies this`locations, this`graph
      ensures Valid()
      ensures graph == ApplyConnection(old(graph), u)
      ensures created == CreatesEdge(u)
      ensures Extends(old(locations), locations)
      ensures forall m {:trigger old(locations)[m]} :: m in old(locations) ==> unchanged(old(locations)[m])
      ensures forall n :: n in locations && n !in old(locations) ==>
                fresh(locations[n]) && locations[n].IsInitial(InitialDescription(storyData, n))
    {
      created := false;
      match ScreenConnection(u) {
        case Accepted(a, b) =>
          EnsureLocations(a, b);
          created := EditEdge(a, b, u.action);
        case _ =>
      }
    }

    /** Both ends of an accepted connection update are created on demand, `a` first. */
    method EnsureLocations(a: string, b: string)
      requires Valid()
      modifies this`locations, this`graph
      ensures Valid()
      ensures graph == EnsureNode(EnsureNode(old(graph), a), b)
      ensures locations.Keys == old(locations).Keys + {a, b}
      ensures Extends(old(locations), locations)
      ensures forall n :: n in locations && n !in old(locations) ==>
                fresh(locations[n]) && locations[n].IsInitial(InitialDescription(storyData, n))
    {
      if a !in locations {
        var _ := AddLocation(a);
      }
      if b !in locations {
        var _ := AddLocation(b);
      }
    }

    /** CREATE adds the edge both ways, DESTROY removes it, any other action leaves the graph alone. */
    method EditEdge(a: string, b: string, action: Option<string>) returns (created: bool)
      requires Valid() && a in locations && b in locations
      modifies this`graph
      ensures Valid()
      ensures graph == if action == Some("CREATE") then AddEdge(old(graph), a, b)
                       else if action == Some("DESTROY") then RemoveEdge(old(graph), a, b)
                       else old(graph)
      ensures created <==> action == Some("CREATE")
    {
      created := false;
      if action == Some("CREATE") {
        AddEdgeSymmetric(graph, a, b);
        graph := AddEdge(graph, a, b);
        created := true;
      } else if action == Some("DESTROY") {
        RemoveEdgeSymmetric(graph, a, b);
        graph := RemoveEdge(graph, a, b);
      }
    }

    /**
     * `apply_turn_changes`: the location updates, then the connection
     * updates, then the flag merge, then the player updates; it returns the
     * moves made and whether a connection was created.
     */
    method ApplyTurnChanges(c: StateChanges) returns (moved: seq<(Player, Option<string>)>, created: bool)
      requires Valid()
      modifies this`locations, this`graph, this`worldFlags, locations.Values`description,
               players.Values`inventory, players.Values`status, players.Values`locationName,
               locations.Values`playersPresent, locations.Values`pendingActions, locations.Values`conversationHistory
      ensures Valid()
      ensures players == old(players) && phase == old(phase)
      ensures worldFlags == old(worldFlags) + c.worldFlagsUpdate
      ensures created <==> exists i :: 0 <= i < |c.connectionUpdates| && CreatesEdge(c.connectionUpdates[i])
      ensures graph == WithNodes(ApplyConnections(WithNodes(old(graph), LocationUpdateNames(c.locationUpdates)), c.connectionUpdates),
                                 MoveTargets(c.playerUpdates, players.Keys))
      ensures PlayerViews() == UpdatePlayersAll(old(PlayerViews()), c.playerUpdates)
      ensures Registered(moved) && MoveNames(moved) == MoveLog(old(PlayerViews()), c.playerUpdates)
      ensures forall n {:trigger old(locations[n])} :: n in old(locations) ==> n in locations && locations[n] == old(locations[n])
      ensures Descriptions() == WithInitial(storyData, DescribeAll(storyData, old(Descriptions()), c.locationUpdates), locations.Keys)
    {
      created := ApplyWorldChanges(c);
      ghost var l1 := locations;
      moved := ApplyPlayerUpdates(c.playerUpdates);
      WithInitialTwice(storyData, DescribeAll(storyData, old(Descriptions()), c.locationUpdates), l1.Keys, locations.Keys);
    }

    /** The part of `apply_turn_changes` before the player updates: the location updates, the connection updates and the flag merge, in that order; no player record changes. */
    method ApplyWorldChanges(c: StateChanges) returns (created: bool)
      requires Valid()
      modifies this`locations, this`graph, this`worldFlags, locations.Values`description
      ensures Valid() && players == old(players) && phase == old(phase) && PlayerViews() == old(PlayerViews())
      ensures worldFlags == old(worldFlags) + c.worldFlagsUpdate
      ensures created <==> exists i :: 0 <= i < |c.connectionUpdates| && CreatesEdge(c.connectionUpdates[i])
      ensures graph == ApplyConnections(WithNodes(old(graph), LocationUpdateNames(c.locationUpdates)), c.connectionUpdates)
      ensures forall n {:trigger old(locations[n])} :: n in old(locations) ==> n in locations && locations[n] == old(locations[n])
      ensures forall n {:trigger locations[n]} :: n in locations && n !in old(locations) ==> fresh(locations[n])
      ensures Descriptions() == WithInitial(storyData, DescribeAll(storyData, old(Descriptions()), c.locationUpdates), locations.Keys)
      ensures forall n {:trigger old(locations[n])} :: n in old(locations) ==>
                var l: Location := old(locations[n]); unchanged(l`playersPresent, l`pendingActions, l`conversationHistory)
    {
      label Start:
      ghost var l0 := locations;
      ApplyLocationUpdates(c.locationUpdates);
      ViewsKept@Start();
      ghost var l1 := locations;
      created := ConnectLocations(c.connectionUpdates);
      ExtendsTrans(l0, l1, locations);
      MergeFlags(c.worldFlagsUpdate);
    }

    /** `ApplyConnectionUpdates`, with what it does to the descriptions: the old texts stay and each new location starts with its initial one. */
    method ConnectLocations(us: seq<ConnectionUpdate>) returns (created: bool)
      requires Valid()
      modifies this`locations, this`graph
      ensures Valid() && PlayerViews() == old(PlayerViews())
      ensures graph == ApplyConnections(old(graph), us)
      ensures created <==> exists i :: 0 <= i < |us| && CreatesEdge(us[i])
      ensures Extends(old(locations), locations)
      ensures forall n {:trigger locations[n]} :: n in locations && n !in old(locations) ==> fresh(locations[n])
      ensures Descriptions() == WithInitial(storyData, old(Descriptions()), locations.Keys)
      ensures forall n {:trigger old(locations[n])} :: n in old(locations) ==>
                var l: Location := old(locations[n]); unchanged(l`playersPresent, l`pendingActions, l`conversationHistory)
    {
      ghost var l1, d1 := locations, Descriptions();
      created := ApplyConnectionUpdates(us);
      ghost var d2 := Descriptions();
      forall n | n in d1 ensures n in d2 && d2[n] == d1[n] {
        assert l1[n] == locations[n];
      }
      WithInitialOf(storyData, d1, d2);
      ViewsKept();
    }

    /** `world_flags.update(...)`: a given flag replaces the old value, the others stay. */
    method MergeFlags(update: map<string, string>)
      requires Valid()
      modifies this`worldFlags
      ensures Valid() && PlayerViews() == old(PlayerViews())
      ensures worldFlags == old(worldFlags) + update
      ensures locations == old(locations) && Descriptions() == old(Descriptions())
      ensures forall n {:trigger old(locations[n])} :: n in old(locations) ==>
                var l: Location := old(locations[n]); unchanged(l`playersPresent, l`pendingActions, l`conversationHistory)
    {
      worldFlags := worldFlags + update;
      ViewsKept();
    }

    /** Every player in a list of moves is the registered player of its name. */
    ghost predicate Registered(moved: seq<(Player, Option<string>)>)
      reads this`players
    {
      forall k {:trigger moved[k]} :: 0 <= k < |moved| ==> moved[k].0.username in players && players[moved[k].0.username] == moved[k].0
    }

    /** Every registered player's inventory, status and location, by name. */
    function PlayerViews(): (r: map<string, PlayerView>)
      reads this`players, players.Values`inventory, players.Values`status, players.Values`locationName
      ensures r.Keys == players.Keys
      ensures forall u {:trigger r[u]} :: u in players ==>
                r[u] == PlayerView(players[u].inventory, players[u].status, players[u].locationName)
    {
      map u | u in players :: PlayerView(players[u].inventory, players[u].status, players[u].locationName)
    }

    /** Every other registered player is another object. */
    lemma OthersDistinct(p: Player)
      requires Named() && p.username in players && players[p.username] == p
      ensures forall u {:trigger players[u]} :: u in players && u != p.username ==> players[u] != p
    {
      forall u | u in players && u != p.username ensures players[u] != p {
        assert players[u].username == u;
      }
    }

    /** A registered player is present, and has an action pending, only where it says it is. */
    lemma AbsentElsewhere(u: string)
      requires Valid() && u in players
      ensures forall m {:trigger locations[m]} :: m in locations && players[u].locationName != Some(m) ==>
                u !in locations[m].playersPresent && u !in locations[m].pendingActions
    {
    }

    /** When only `p`'s record changed, the records change only at `p`'s name. */
    /** With the same registry and no player record changed, the player views stay. */
    twostate lemma ViewsKept()
      requires players == old(players)
      requires forall u {:trigger players[u]} :: u in players ==>
                 var p: Player := players[u]; unchanged(p`inventory, p`status, p`locationName)
      ensures PlayerViews() == old(PlayerViews())
    {
    }

    twostate lemma ViewsAfterEdit(p: Player)
      requires old(Named()) && players == old(players) && p.username in players && players[p.username] == p
      requires forall u {:trigger players[u]} :: u in players && u != p.username ==> unchanged(players[u])
      ensures PlayerViews() == old(PlayerViews())[p.username := PlayerView(p.inventory, p.status, p.locationName)]
    {
    }

    /**
     * The `player_updates` loop of `apply_turn_changes`: each update naming
     * a registered player edits its inventory and status and moves it on a
     * truthy target; the moves are returned in order, each with the location
     * the player left.
     */
    method ApplyPlayerUpdates(us: seq<PlayerUpdate>) returns (moved: seq<(Player, Option<string>)>)
      requires Valid()
      modifies this`locations, this`graph, players.Values`inventory, players.Values`status, players.Values`locationName,
               locations.Values`playersPresent, locations.Values`pendingActions, locations.Values`conversationHistory
      ensures Valid()
      ensures players == old(players)
      ensures PlayerViews() == UpdatePlayersAll(old(PlayerViews()), us)
      ensures MoveNames(moved) == MoveLog(old(PlayerViews()), us)
      ensures Registered(moved)
      ensures graph == WithNodes(old(graph), MoveTargets(us, old(players).Keys))
      ensures forall n {:trigger old(locations[n])} :: n in old(locations) ==> n in locations && locations[n] == old(locations[n])
      ensures forall n {:trigger locations[n]} :: n in locations && n !in old(locations) ==> fresh(locations[n])
      ensures Descriptions() == WithInitial(storyData, old(Descriptions()), locations.Keys)
    {
      ghost var p0, g0, l0, v0, d0 := players, graph, locations, PlayerViews(), Descriptions();
      moved := [];
      var i := 0;
      while i < |us|
        invariant 0 <= i <= |us|
        invariant Valid() && players == p0
        invariant PlayerViews() == UpdatePlayersAll(v0, us[..i])
        invariant MoveNames(moved) == MoveLog(v0, us[..i])
        invariant Registered(moved)
        invariant graph == WithNodes(g0, MoveTargets(us[..i], p0.Keys))
        invariant forall n {:trigger l0[n]} :: n in l0 ==> n in locations && locations[n] == l0[n]
        invariant forall n {:trigger locations[n]} :: n in locations && n !in l0 ==> fresh(locations[n])
        invariant Descriptions() == WithInitial(storyData, d0, locations.Keys)
      {
        moved := PlayerUpdateStep(us, i, p0, g0, v0, d0, moved);
        i := i + 1;
      }
      assert us[..i] == us;
    }

    /** Keeping the old locations' texts and describing each new one afresh extends the description map to the new names. */
    twostate lemma DescriptionsKept()
      requires forall n {:trigger old(locations[n])} :: n in old(locations) ==>
                 n in locations && locations[n] == old(locations[n]) && locations[n].description == old(locations[n].description)
      requires forall n {:trigger locations[n]} :: n in locations && n !in old(locations) ==>
                 locations[n].description == InitialDescription(storyData, n)
      ensures Descriptions() == WithInitial(storyData, old(Descriptions()), locations.Keys)
    {
      WithInitialOf(storyData, old(Descriptions()), Descriptions());
    }

    /** The update at `i`, with the records, the moves and the graph carried from the first `i` updates to the first `i + 1`. */
    method PlayerUpdateStep(us: seq<PlayerUpdate>, i: nat, ghost p0: map<string, Player>, ghost g0: Adjacency,
                            ghost v0: map<string, PlayerView>, ghost d0: map<string, string>, movedIn: seq<(Player, Option<string>)>)
      returns (movedOut: seq<(Player, Option<string>)>)
      requires Valid() && i < |us| && players == p0
      requires Descriptions() == WithInitial(storyData, d0, locations.Keys)
      requires PlayerViews() == UpdatePlayersAll(v0, us[..i])
      requires MoveNames(movedIn) == MoveLog(v0, us[..i])
      requires graph == WithNodes(g0, MoveTargets(us[..i], p0.Keys))
      requires Registered(movedIn)
      modifies this`locations, this`graph, players.Values`inventory, players.Values`status, players.Values`locationName,
               locations.Values`playersPresent, locations.Values`pendingActions, locations.Values`conversationHistory
      ensures Valid() && players == p0
      ensures PlayerViews() == UpdatePlayersAll(v0, us[..i + 1])
      ensures MoveNames(movedOut) == MoveLog(v0, us[..i + 1])
      ensures graph == WithNodes(g0, MoveTargets(us[..i + 1], p0.Keys))
      ensures Registered(movedOut)
      ensures forall n {:trigger old(locations[n])} :: n in old(locations) ==> n in locations && locations[n] == old(locations[n])
      ensures forall n {:trigger locations[n]} :: n in locations && n !in old(locations) ==> fresh(locations[n])
      ensures Descriptions() == WithInitial(storyData, d0, locations.Keys)
    {
      UpdateStep(v0, us, i);
      TargetsStep(g0, us, i, p0.Keys);
      ghost var k := locations.Keys;
      movedOut := DescribedPlayerUpdate(us[i], movedIn);
      WithInitialTwice(storyData, d0, k, locations.Keys);
    }

    /** `ApplyPlayerUpdate`, with what it does to the description map. */
    method DescribedPlayerUpdate(pu: PlayerUpdate, movedIn: seq<(Player, Option<string>)>)
      returns (movedOut: seq<(Player, Option<string>)>)
      requires Valid()
      requires Registered(movedIn)
      modifies this`locations, this`graph, players.Values`inventory, players.Values`status, players.Values`locationName,
               locations.Values`playersPresent, locations.Values`pendingActions, locations.Values`conversationHistory
      ensures Valid() && players == old(players)
      ensures PlayerViews() == UpdatePlayers(old(PlayerViews()), pu)
      ensures MoveNames(movedOut) == MoveNames(movedIn) + MoveEntry(old(PlayerViews()), pu)
      ensures Registered(movedOut)
      ensures graph == if pu.username.Some? && pu.username.value in players && Truthy(pu.moveToLocation)
                       then EnsureNode(old(graph), pu.moveToLocation.value) else old(graph)
      ensures forall n {:trigger old(locations[n])} :: n in old(locations) ==> n in locations && locations[n] == old(locations[n])
      ensures forall n {:trigger locations[n]} :: n in locations && n !in old(locations) ==> fresh(locations[n])
      ensures Descriptions() == WithInitial(storyData, old(Descriptions()), locations.Keys)
    {
      ghost var l1, d1 := locations, Descriptions();
      movedOut := ApplyPlayerUpdate(pu, movedIn);
      ghost var d2 := Descriptions();
      forall n | n in d1 ensures n in d2 && d2[n] == d1[n] {
        assert l1[n] == locations[n];
      }
      forall n | n in d2 && n !in d1 ensures d2[n] == InitialDescription(storyData, n) {
      }
      WithInitialOf(storyData, d1, d2);
    }

    /** One player update: skipped for an unknown name, else the edits, then the move on a truthy target. */
    method ApplyPlayerUpdate(pu: PlayerUpdate, movedIn: seq<(Player, Option<string>)>)
      returns (movedOut: seq<(Player, Option<string>)>)
      requires Valid()
      requires Registered(movedIn)
      modifies this`locations, this`graph, players.Values`inventory, players.Values`status, players.Values`locationName,
               locations.Values`playersPresent, locations.Values`pendingActions, locations.Values`conversationHistory
      ensures Valid() && players == old(players)
      ensures PlayerViews() == UpdatePlayers(old(PlayerViews()), pu)
      ensures MoveNames(movedOut) == MoveNames(movedIn) + MoveEntry(old(PlayerViews()), pu)
      ensures Registered(movedOut)
      ensures graph == if pu.username.Some? && pu.username.value in players && Truthy(pu.moveToLocation)
                       then EnsureNode(old(graph), pu.moveToLocation.value) else old(graph)
      ensures forall n {:trigger old(locations[n])} :: n in old(locations) ==> n in locations && locations[n] == old(locations[n])
      ensures forall n {:trigger locations[n]} :: n in locations && n !in old(locations) ==>
                fresh(locations[n]) && locations[n].description == InitialDescription(storyData, n)
      ensures forall n {:trigger old(locations[n])} :: n in old(locations) && n !in StepTouched(old(PlayerViews()), pu) ==>
                var l: Location := old(locations[n]); unchanged(l`playersPresent, l`pendingActions, l`conversationHistory)
    {
      movedOut := movedIn;
      if pu.username.Some? && pu.username.value in players {
        var p := players[pu.username.value];
        if Truthy(pu.moveToLocation) {
          movedOut := EditAndMove(p, pu, movedIn);
        } else {
          EditPlayer(p, pu);
        }
      }
    }

    /** A player update that moves its player: the edits, then the move. */
    method EditAndMove(p: Player, pu: PlayerUpdate, movedIn: seq<(Player, Option<string>)>)
      returns (movedOut: seq<(Player, Option<string>)>)
      requires Valid() && pu.username == Some(p.username) && p.username in players && players[p.username] == p
      requires Truthy(pu.moveToLocation) && Registered(movedIn)
      modifies this`locations, this`graph, p`inventory, p`status, p`locationName,
               locations.Values`playersPresent, locations.Values`pendingActions, locations.Values`conversationHistory
      ensures Valid() && players == old(players)
      ensures PlayerViews() == UpdatePlayers(old(PlayerViews()), pu)
      ensures Registered(movedOut) && MoveNames(movedOut) == MoveNames(movedIn) + MoveEntry(old(PlayerViews()), pu)
      ensures graph == EnsureNode(old(graph), pu.moveToLocation.value)
      ensures forall n {:trigger old(locations[n])} :: n in old(locations) ==> n in locations && locations[n] == old(locations[n])
      ensures forall n {:trigger locations[n]} :: n in locations && n !in old(locations) ==>
                fresh(locations[n]) && locations[n].description == InitialDescription(storyData, n)
      ensures forall n {:trigger old(locations[n])} :: n in old(locations) && n != pu.moveToLocation.value && old(p.locationName) != Some(n) ==>
                var l: Location := old(locations[n]); unchanged(l`playersPresent, l`pendingActions, l`conversationHistory)
    {
      var u := p.username;
      ghost var v0 := PlayerViews();
      ghost var e := EditView(v0[u], pu);
      EditPlayer(p, pu);
      ghost var v1 := PlayerViews();
      assert v1 == v0[u := e.(locationName := v0[u].locationName)];
      movedOut := MoveSeen(p, pu.moveToLocation.value, movedIn);
      assert PlayerViews() == v1[u := e];
      UpdateTwice(v0, u, e.(locationName := v0[u].locationName), e);
    }

    /** The inventory and status half of a player update: its move, if any, is left to the caller. */
    method EditPlayer(p: Player, pu: PlayerUpdate)
      requires Valid() && pu.username == Some(p.username) && p.username in players && players[p.username] == p
      modifies p`inventory, p`status
      ensures Valid()
      ensures forall n {:trigger old(locations[n])} :: n in old(locations) ==>
                var l: Location := old(locations[n]); unchanged(l`playersPresent, l`pendingActions, l`conversationHistory)
      ensures PlayerViews() == UpdatePlayers(old(PlayerViews()), pu.(moveToLocation := None))
    {
      ghost var v0 := PlayerViews();
      var e := EditView(PlayerView(p.inventory, p.status, p.locationName), pu.(moveToLocation := None));
      p.inventory := e.inventory;
      p.status := e.status;
      forall u | u in players && u != p.username ensures unchanged(players[u]) {
        assert players[u].username == u;
      }
      ViewsAfterEdit(p);
      assert PlayerViews() == v0[p.username := e];
    }

    /** `MovePlayerToLocation`, seen through the player records. */
    method MoveSeen(p: Player, n: string, movedIn: seq<(Player, Option<string>)>) returns (movedOut: seq<(Player, Option<string>)>)
      requires Valid() && p.username in players && players[p.username] == p && n != "" && Registered(movedIn)
      modifies this`locations, this`graph, p`locationName,
               locations.Values`playersPresent, locations.Values`pendingActions, locations.Values`conversationHistory
      ensures Valid() && players == old(players)
      ensures PlayerViews() == old(PlayerViews())[p.username := old(PlayerViews())[p.username].(locationName := Some(n))]
      ensures movedOut == movedIn + [(p, old(p.locationName))]
      ensures Registered(movedOut) && MoveNames(movedOut) == MoveNames(movedIn) + [(p.username, old(p.locationName))]
      ensures graph == EnsureNode(old(graph), n)
      ensures forall m {:trigger old(locations[m])} :: m in old(locations) ==> m in locations && locations[m] == old(locations[m])
      ensures forall m {:trigger locations[m]} :: m in locations && m !in old(locations) ==>
                fresh(locations[m]) && locations[m].description == InitialDescription(storyData, m)
      ensures forall m {:trigger old(locations[m])} :: m in old(locations) && m != n && old(p.locationName) != Some(m) ==>
                var l: Location := old(locations[m]); unchanged(l`playersPresent, l`pendingActions, l`conversationHistory)
    {
      OthersDistinct(p);
      AbsentElsewhere(p.username);
      movedOut := MovePlayerToLocation(p, n, movedIn);
      forall m | m in old(locations) && m != n && old(p.locationName) != Some(m)
        ensures var l: Location := old(locations[m]); unchanged(l`playersPresent, l`pendingActions, l`conversationHistory)
      {
        var l := old(locations[m]);
        assert locations[m] == l && OnlyLeft(l, p.username, false);
        assert p.username !in old(l.playersPresent) && p.username !in old(l.pendingActions);
        WithoutAbsent(old(l.playersPresent), old(l.pendingActions), p.username);
        assert old(l.conversationHistory) + [] == old(l.conversationHistory);
      }
      ViewsAfterEdit(p);
      MoveNamesAppend(movedIn, (p, old(p.locationName)));
      RegisteredAppend(players, movedIn, (p, old(p.locationName)));
    }

    /**
     * `reset_to_lobby`: back to the lobby with no locations, no connections and
     * no flags; every registered player is reset to the lobby defaults and keeps
     * its status effects.
     */
    method ResetToLobby()
      requires Valid()
      modifies this`phase, this`locations, this`graph, this`worldFlags, players.Values
      ensures Valid()
      ensures phase == Lobby && locations == map[] && graph == map[] && worldFlags == map[]
      ensures players == old(players)
      ensures forall u {:trigger players[u]} :: u in players ==>
                && players[u].locationName == None && players[u].inventory == [Flashlight]
                && players[u].status == [Healthy] && players[u].personalHistory == []
                && players[u].statusEffects == old(players[u].statusEffects)
    {
      phase := Lobby;
      locations := map[];
      graph := map[];
      worldFlags := map[];
      var rest := players.Keys;
      while rest != {}
        invariant rest <= players.Keys && players == old(players)
        invariant phase == Lobby && locations == map[] && graph == map[] && worldFlags == map[]
        invariant forall u {:trigger players[u]} :: u in players && u !in rest ==>
                    && players[u].locationName == None && players[u].inventory == [Flashlight]
                    && players[u].status == [Healthy] && players[u].personalHistory == []
                    && players[u].statusEffects == old(players[u].statusEffects)
        invariant forall u {:trigger players[u]} :: u in rest ==> unchanged(players[u])
        decreases rest
      {
        var u :| u in rest;
        players[u].Reset();
        forall v | v in rest && v != u ensures unchanged(players[v]) {
          assert players[v].username == v;
        }
        rest := rest - {u};
      }
    }

    /** No registered player names a location other than the start room. */
    ghost predicate OnlyAtStart()
      reads this`players, players.Values`locationName
    {
      forall u {:trigger players[u]} :: u in players ==> players[u].locationName == None || players[u].locationName == Some(StartRoom)
    }

    /**
     * `start_game`: refused unless in the lobby. Otherwise the game becomes
     * active, the start room exists, every registered player names it and is
     * present in it, and its history records one arrival per player in the
     * order the registry was walked (`order`).
     */
    method StartGame() returns (ok: bool, ghost order: seq<string>)
      requires Valid()
      modifies this`phase, this`locations, this`graph, players.Values`locationName,
               LocAt(StartRoom)`playersPresent, LocAt(StartRoom)`conversationHistory
      ensures ok <==> old(phase) == Lobby
      ensures !ok ==> phase == old(phase) && locations == old(locations) && graph == old(graph)
                      && forall u {:trigger players[u]} :: u in players ==> unchanged(players[u])
      ensures !ok ==> Valid()
      ensures ok ==> phase == Active
      ensures players == old(players)
      ensures ok ==> StartRoom in locations && locations == old(locations)[StartRoom := locations[StartRoom]]
      ensures ok ==> graph == EnsureNode(old(graph), StartRoom)
      ensures ok ==> forall u {:trigger players[u]} :: u in players ==> players[u].locationName == Some(StartRoom)
      ensures ok ==> locations[StartRoom].playersPresent == old(PresentAt(StartRoom)) + players.Keys
      ensures ok ==> NoDuplicates(order) && (forall u :: u in order <==> u in players)
      ensures ok ==> locations[StartRoom].conversationHistory == old(HistoryAt(StartRoom)) + JoinEntries(order)
      ensures ok && old(OnlyAtStart()) ==> Valid()
      ensures ok && StartRoom in old(locations) ==> locations[StartRoom] == old(locations[StartRoom])
      ensures ok && StartRoom !in old(locations) ==> fresh(locations[StartRoom])
    {
      ok, order := false, [];
      if phase != Lobby {
        return;
      }
      phase := Active;
      order := GatherAtStart();
      ok := true;
    }

    /** The accepted half of `start_game`, once the phase is active. */
    method GatherAtStart() returns (ghost order: seq<string>)
      requires Valid()
      modifies this`locations, this`graph, players.Values`locationName,
               LocAt(StartRoom)`playersPresent, LocAt(StartRoom)`conversationHistory
      ensures players == old(players)
      ensures StartRoom in locations && locations == old(locations)[StartRoom := locations[StartRoom]]
      ensures graph == EnsureNode(old(graph), StartRoom)
      ensures forall u {:trigger players[u]} :: u in players ==> players[u].locationName == Some(StartRoom)
      ensures locations[StartRoom].playersPresent == old(PresentAt(StartRoom)) + players.Keys
      ensures NoDuplicates(order) && (forall u :: u in order <==> u in players)
      ensures locations[StartRoom].conversationHistory == old(HistoryAt(StartRoom)) + JoinEntries(order)
      ensures old(OnlyAtStart()) ==> Valid()
      ensures StartRoom in old(locations) ==> locations[StartRoom] == old(locations[StartRoom])
      ensures StartRoom !in old(locations) ==> fresh(locations[StartRoom])
    {
      var start := GetOrCreateLocation(StartRoom);
      order := PlaceAll(start);
    }

    /** Sending every player to the start room keeps the invariant when none of them named another location. */
    twostate lemma PlacedAtStart(start: Location)
      requires old(Valid()) && old(OnlyAtStart())
      requires players == old(players) && locations == old(locations) && graph == old(graph)
      requires StartRoom in locations && locations[StartRoom] == start
      requires forall u {:trigger players[u]} :: u in players ==> players[u].locationName == Some(StartRoom)
      requires start.playersPresent == old(start.playersPresent) + players.Keys
      requires forall n {:trigger locations[n]} :: n in locations ==> locations[n].pendingActions == old(locations[n].pendingActions)
      requires forall n {:trigger locations[n]} :: n in locations && n != StartRoom ==>
                 locations[n].playersPresent == old(locations[n].playersPresent)
      ensures Valid()
    {
    }

    /** The loop of `start_game`: every registered player is sent to the start room `start`. */
    method PlaceAll(start: Location) returns (ghost order: seq<string>)
      requires Named()
      modifies players.Values`locationName, start`playersPresent, start`conversationHistory
      ensures forall u {:trigger players[u]} :: u in players ==> players[u].locationName == Some(StartRoom)
      ensures start.playersPresent == old(start.playersPresent) + players.Keys
      ensures NoDuplicates(order) && (forall u :: u in order <==> u in players)
      ensures start.conversationHistory == old(start.conversationHistory) + JoinEntries(order)
      ensures old(Valid()) && old(OnlyAtStart()) && StartRoom in locations && locations[StartRoom] == start ==> Valid()
    {
      order := PlaceEach(start);
      if old(Valid()) && old(OnlyAtStart()) && StartRoom in locations && locations[StartRoom] == start {
        forall n | n in locations && n != StartRoom
          ensures locations[n].playersPresent == old(locations[n].playersPresent)
        {
          assert locations[n].name == n;
        }
        PlacedAtStart(start);
      }
    }

    /** The placing itself: each registered player in turn names the start room and arrives there. */
    method PlaceEach(start: Location) returns (ghost order: seq<string>)
      requires Named()
      modifies players.Values`locationName, start`playersPresent, start`conversationHistory
      ensures forall u {:trigger players[u]} :: u in players ==> players[u].locationName == Some(StartRoom)
      ensures start.playersPresent == old(start.playersPresent) + players.Keys
      ensures NoDuplicates(order) && (forall u :: u in order <==> u in players)
      ensures start.conversationHistory == old(start.conversationHistory) + JoinEntries(order)
    {
      ghost var present0, hist0 := start.playersPresent, start.conversationHistory;
      order := [];
      var rest := players.Keys;
      while rest != {}
        invariant rest <= players.Keys
        invariant forall u {:trigger players[u]} :: u in players && u !in rest ==> players[u].locationName == Some(StartRoom)
        invariant forall u {:trigger players[u]} :: u in rest ==> players[u].locationName == old(players[u].locationName)
        invariant NoDuplicates(order) && (forall u :: u in order <==> u in players && u !in rest)
        invariant start.playersPresent == present0 + (players.Keys - rest)
        invariant start.conversationHistory == hist0 + JoinEntries(order)
        decreases rest
      {
        var u :| u in rest;
        PlaceOne(start, players[u]);
        JoinEntriesAppend(order, u);
        order := order + [u];
        rest := rest - {u};
      }
      assert players.Keys - rest == players.Keys;
    }

    /** One turn of that loop: the player names the start room and arrives there; no other player's location changes. */
    method PlaceOne(start: Location, p: Player)
      requires Named() && p.username in players && players[p.username] == p
      modifies p`locationName, start`playersPresent, start`conversationHistory
      ensures p.locationName == Some(StartRoom)
      ensures forall v {:trigger players[v]} :: v in players && v != p.username ==> players[v].locationName == old(players[v].locationName)
      ensures start.playersPresent == old(start.playersPresent) + {p.username}
      ensures start.conversationHistory == old(start.conversationHistory) + [JoinEntry(p.username)]
    {
      p.locationName := Some(StartRoom);
      start.AddPlayer(p.username);
      forall v | v in players && v != p.username ensures players[v].locationName == old(players[v].locationName) {
        assert players[v].username == v;
      }
    }

    /** With every registered player in the start room, the room holds exactly the registered players, and only they can have an action there. */
    lemma AllAtStart()
      requires Valid() && StartRoom in locations
      requires forall u {:trigger players[u]} :: u in players ==> players[u].locationName == Some(StartRoom)
      ensures RegisteredAt(StartRoom) == players.Keys
      ensures PendingAt(StartRoom).Keys <= players.Keys
    {
      forall u | u in players ensures u in locations[StartRoom].playersPresent {
        assert players[u].locationName == Some(StartRoom);
      }
    }

    /** Those present at `n` that are registered: what `get_players_in_locations` reports for one location name. */
    ghost function RegisteredAt(n: string): set<string>
      reads this`players, this`locations, locations.Values`playersPresent
    {
      if n in locations then locations[n].playersPresent * players.Keys else {}
    }

    /** How many players `get_players_in_locations` reports for `names`, a player counted once per name it is found under. */
    ghost function Headcount(names: seq<string>): nat
      reads this`players, this`locations, locations.Values`playersPresent
    {
      if names == [] then 0 else Headcount(names[..|names| - 1]) + |RegisteredAt(names[|names| - 1])|
    }

    /** The registered players present at `n`, in some iteration order of the set. */
    method PlayersAt(n: string) returns (ps: seq<Player>)
      requires Valid()
      ensures |ps| == |RegisteredAt(n)|
      ensures forall p :: p in ps <==> p.username in players && players[p.username] == p && p.username in RegisteredAt(n)
      ensures forall p :: p in ps ==> p.locationName == Some(n)
      ensures forall i, j :: 0 <= i < j < |ps| ==> ps[i] != ps[j]
    {
      ps := [];
      var rest: set<string> := {};
      if n in locations {
        rest := locations[n].playersPresent * players.Keys;
      }
      while rest != {}
        invariant rest <= RegisteredAt(n)
        invariant |ps| + |rest| == |RegisteredAt(n)|
        invariant forall p :: p in ps <==> p.username in players && players[p.username] == p && p.username in RegisteredAt(n) - rest
        invariant forall p :: p in ps ==> p.locationName == Some(n)
        invariant forall i, j :: 0 <= i < j < |ps| ==> ps[i] != ps[j]
        decreases rest
      {
        var u :| u in rest;
        assert players[u].username == u;
        ps := ps + [players[u]];
        rest := rest - {u};
      }
    }

    /** `get_players_in_locations`: the registered players present at each named location, name by name; unknown names add nobody. */
    method GetPlayersInLocations(names: seq<string>) returns (found: seq<Player>)
      requires Valid()
      ensures |found| == Headcount(names)
      ensures forall p :: p in found <==>
                p.username in players && players[p.username] == p &&
                exists i :: 0 <= i < |names| && p.username in RegisteredAt(names[i])
      ensures forall p :: p in found ==> p.locationName.Some? && p.locationName.value in names
      ensures NoDuplicates(names) ==> forall i, j :: 0 <= i < j < |found| ==> found[i] != found[j]
    {
      found := [];
      var i := 0;
      while i < |names|
        invariant 0 <= i <= |names|
        invariant |found| == Headcount(names[..i])
        invariant forall p :: p in found <==>
                    p.username in players && players[p.username] == p &&
                    exists j :: 0 <= j < i && p.username in RegisteredAt(names[j])
        invariant forall p :: p in found ==> p.locationName.Some? && p.locationName.value in names[..i]
        invariant NoDuplicates(names) ==> forall a, b :: 0 <= a < b < |found| ==> found[a] != found[b]
      {
        found := GatherStep(names, i, found);
        i := i + 1;
      }
      assert names[..i] == names;
    }

    /** One name of `get_players_in_locations`: its players are appended, the facts carried from the first `i` names to the first `i + 1`. */
    method GatherStep(names: seq<string>, i: nat, found: seq<Player>) returns (found': seq<Player>)
      requires Valid() && i < |names|
      requires |found| == Headcount(names[..i])
      requires forall p :: p in found <==>
                 p.username in players && players[p.username] == p &&
                 exists j :: 0 <= j < i && p.username in RegisteredAt(names[j])
      requires forall p :: p in found ==> p.locationName.Some? && p.locationName.value in names[..i]
      requires NoDuplicates(names) ==> forall a, b :: 0 <= a < b < |found| ==> found[a] != found[b]
      ensures |found'| == Headcount(names[..i + 1])
      ensures forall p :: p in found' <==>
                p.username in players && players[p.username] == p &&
                exists j :: 0 <= j < i + 1 && p.username in RegisteredAt(names[j])
      ensures forall p :: p in found' ==> p.locationName.Some? && p.locationName.value in names[..i + 1]
      ensures NoDuplicates(names) ==> forall a, b :: 0 <= a < b < |found'| ==> found'[a] != found'[b]
    {
      var ps := PlayersAt(names[i]);
      assert names[..i + 1][..i] == names[..i];
      if NoDuplicates(names) {
        assert names[i] !in names[..i];
        forall a, b | 0 <= a < b < |found + ps| ensures (found + ps)[a] != (found + ps)[b] {
          if a < |found| <= b {
            assert found[a] in found && ps[b - |found|] in ps;
          }
        }
      }
      found' := found + ps;
    }

    /**
     * `get_stats`: the counts of players and locations, half the sum of the
     * neighbour-set sizes as the connection count, the phase, and the flags or
     * the "no flags" marker when there are none.
     */
    method GetStats() returns (s: Stats)
      ensures s.playerCount == |players| && s.locationCount == |locations| && s.phase == phase
      ensures s.connectionCount == DegreeSum(graph) / 2
      ensures s.worldFlags == if worldFlags == map[] then NoFlags else Flags(worldFlags)
    {
      var total := 0;
      var rest := graph.Keys;
      assert Restrict(graph, rest) == graph;
      while rest != {}
        invariant rest <= graph.Keys
        invariant total + DegreeSum(Restrict(graph, rest)) == DegreeSum(graph)
        decreases rest
      {
        var k :| k in rest;
        DegreeSumRemove(Restrict(graph, rest), k);
        assert Restrict(graph, rest) - {k} == Restrict(graph, rest - {k});
        total := total + |graph[k]|;
        rest := rest - {k};
      }
      assert Restrict(graph, rest) == map[];
      var flags := if worldFlags == map[] then NoFlags else Flags(worldFlags);
      s := Stats(|players|, |locations|, total / 2, phase, flags);
    }
  }
}
