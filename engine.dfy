/**
 * The turn scheduler (`server/game/engine.py`, class `GameEngine`): it records
 * player actions, partitions the playing players into groups by connected
 * component of the location graph, hands a group whose players have all acted
 * to a turn, and runs the non-narrative parts of that turn: status-effect
 * ticks, turn counters, idle actions, and the `finally` block that clears the
 * turn and releases the group's key.
 *
 * The trio nursery is not modelled as tasks: handing a turn to it is an entry
 * in the ghost `log`, and every method runs atomically. The narrator is an
 * arbitrary narration text and an optional delta passed in as parameters.
 */
module Engine {
  import opened Common
  import opened Graph
  import opened Players
  import opened Locations
  import opened Changes
  import opened World

  /** The action the opening narration records for a player at the start room who has none. */
  const LookAround: string := "осматривается по сторонам"
  /** The action a turn records for a present player who did not act. */
  const Idle: string := "бездействует"

  datatype ActionOutcome = Ignored | AlreadyActed | Recorded

  /** One entry of the dispatcher's log. */
  datatype Decision =
    | Dispatched(key: set<string>, merge: bool)
    | Waiting(key: set<string>, exclude: set<string>)
    | Finished(key: set<string>)

  /** The message recorded for a status effect that ran out. */
  function ExpiryMessage(effect: string, username: string): string
  {
    "Эффект '" + effect + "' на игроке " + username + " прошел."
  }

  function ExpiryMessages(expired: seq<string>, username: string): seq<string>
  {
    seq(|expired|, k requires 0 <= k < |expired| => ExpiryMessage(expired[k], username))
  }

  /** The history lines `add_system_message_to_history` writes for `msgs`, in order. */
  function SystemEntries(msgs: seq<string>): seq<string>
  {
    seq(|msgs|, k requires 0 <= k < |msgs| => SystemEntry(msgs[k]))
  }

  /** The history lines the idle fill writes for `us`, in order. */
  function IdleEntries(us: seq<string>): seq<string>
  {
    seq(|us|, k requires 0 <= k < |us| => ActionEntry(us[k], Idle))
  }

  /** No location object occurs twice. */
  predicate DistinctLocations(group: seq<Location>)
  {
    forall i, j :: 0 <= i < j < |group| ==> group[i] != group[j]
  }

  /** `frozenset(loc.name for loc in group_locations)`. */
  function KeyOf(group: seq<Location>): (r: set<string>)
    ensures forall l :: l in group ==> l.name in r
  {
    set l | l in group :: l.name
  }

  /** `{loc.turn_counter for loc in locations_in_group}`. */
  function Counters(group: seq<Location>): set<nat>
    reads (set l | l in group)`turnCounter
  {
    set l | l in group :: l.turnCounter
  }

  /** `max(loc.turn_counter for loc in group_locations)`. */
  function MaxCounter(group: seq<Location>): (r: nat)
    requires |group| > 0
    reads (set l | l in group)`turnCounter
    ensures forall l :: l in group ==> l.turnCounter <= r
    ensures exists l :: l in group && l.turnCounter == r
  {
    if |group| == 1 then group[0].turnCounter
    else
      var m := MaxCounter(group[..|group| - 1]);
      assert forall l :: l in group[..|group| - 1] ==> l in group;
      assert forall l :: l in group ==> l in group[..|group| - 1] || l == group[|group| - 1];
      if group[|group| - 1].turnCounter > m then group[|group| - 1].turnCounter else m
  }

  /** A turn is a merge turn exactly when two of the group's locations disagree on the turn counter. */
  lemma MergeIffCountersDiffer(group: seq<Location>)
    ensures |Counters(group)| > 1 <==>
            exists i, j :: 0 <= i < |group| && 0 <= j < |group| && group[i].turnCounter != group[j].turnCounter
  {
    if exists i, j :: 0 <= i < |group| && 0 <= j < |group| && group[i].turnCounter != group[j].turnCounter {
      var i, j :| 0 <= i < |group| && 0 <= j < |group| && group[i].turnCounter != group[j].turnCounter;
      assert {group[i].turnCounter, group[j].turnCounter} <= Counters(group);
      assert |{group[i].turnCounter, group[j].turnCounter}| == 2;
      SubsetCard({group[i].turnCounter, group[j].turnCounter}, Counters(group));
    } else if |group| > 0 {
      assert Counters(group) == {group[0].turnCounter};
    } else {
      assert Counters(group) == {};
    }
  }

  lemma SubsetCard(a: set<nat>, b: set<nat>)
    requires a <= b
    ensures |a| <= |b|
  {
    assert b == a + (b - a);
  }

  /** Every location of a group showing the same counter: the next turn of the group is not a merge. */
  lemma SameCounterNoMerge(group: seq<Location>, c: nat)
    requires |group| > 0 && forall l :: l in group ==> l.turnCounter == c
    ensures Counters(group) == {c} && |Counters(group)| == 1
  {
    assert group[0] in group;
  }

  /** The expiry messages of one tick over players with these effects and names, player by player, each in the order of that player's effects. */
  function ExpiryLogOf(effects: seq<seq<StatusEffect>>, names: seq<string>): seq<string>
    requires |effects| == |names|
  {
    if effects == [] then []
    else
      var n := |effects| - 1;
      ExpiryLogOf(effects[..n], names[..n]) + ExpiryMessages(Tick(effects[n]).1, names[n])
  }

  /** The log over one more player. */
  lemma ExpiryLogStep(effects: seq<seq<StatusEffect>>, names: seq<string>, i: nat)
    requires |effects| == |names| && i < |effects|
    ensures ExpiryLogOf(effects[..i + 1], names[..i + 1]) == ExpiryLogOf(effects[..i], names[..i]) + ExpiryMessages(Tick(effects[i]).1, names[i])
  {
    assert effects[..i + 1][..i] == effects[..i] && names[..i + 1][..i] == names[..i];
  }

  /** The status effects of `ps`, in order. */
  ghost function EffectsOf(ps: seq<Player>): (r: seq<seq<StatusEffect>>)
    reads set p | p in ps
    ensures |r| == |ps| && forall k :: 0 <= k < |ps| ==> r[k] == ps[k].statusEffects
  {
    seq(|ps|, k requires 0 <= k < |ps| reads set p | p in ps => ps[k].statusEffects)
  }

  /** The names of `ps`, in order. */
  function UsernamesOf(ps: seq<Player>): (r: seq<string>)
    ensures |r| == |ps| && forall k :: 0 <= k < |ps| ==> r[k] == ps[k].username
  {
    seq(|ps|, k requires 0 <= k < |ps| => ps[k].username)
  }

  /** The expiry messages of one tick over `ps`. */
  ghost function ExpiryLog(ps: seq<Player>): seq<string>
    reads set p | p in ps
  {
    ExpiryLogOf(EffectsOf(ps), UsernamesOf(ps))
  }

  /**
   * What the idle fill did at `loc`, which had the pending actions `pending0`
   * before: `order` lists, once each, the present players it found without an
   * action; each of them now has the idle action, and the other actions are
   * kept.
   */
  ghost predicate IdleFilled(loc: Location, pending0: map<string, string>, order: seq<string>)
    reads loc`playersPresent, loc`pendingActions
  {
    && NoDuplicates(order) && (forall u :: u in order <==> u in loc.playersPresent && u !in pending0)
    && loc.pendingActions.Keys == pending0.Keys + loc.playersPresent
    && (forall u :: u in pending0 ==> loc.pendingActions[u] == pending0[u])
    && (forall u :: u in order ==> loc.pendingActions[u] == Idle)
  }

  /** One entry of `player_groups`: the names of a component and the usernames gathered for it. */
  datatype Group = Group(key: set<string>, members: seq<string>)

  /** Where `key` sits among the groups, or `|groups|` when it is not there yet. */
  function KeyIndex(groups: seq<Group>, key: set<string>): (r: nat)
    ensures r <= |groups|
    ensures r < |groups| ==> groups[r].key == key
    ensures r == |groups| ==> forall k :: 0 <= k < |groups| ==> groups[k].key != key
  {
    if groups == [] then 0
    else if groups[0].key == key then 0
    else 1 + KeyIndex(groups[1..], key)
  }

  function Usernames(ps: seq<Player>): set<string>
  {
    set p | p in ps :: p.username
  }

  /** The history lines a turn's narration adds at each location of the group: none for a blank narration. */
  function Narrated(narration: string): (r: seq<string>)
    ensures Strip(narration) == [] <==> r == []
    ensures r != [] ==> r == [NarrateEntry(Strip(narration))]
  {
    if Strip(narration) == [] then [] else [NarrateEntry(Strip(narration))]
  }

  /** A delta that moves some player or creates some connection, which sends the engine back to the group check. */
  predicate Reshapes(views: map<string, PlayerView>, c: StateChanges)
  {
    |MoveLog(views, c.playerUpdates)| > 0 || exists i :: 0 <= i < |c.connectionUpdates| && CreatesEdge(c.connectionUpdates[i])
  }

  /** The pending actions after the opening narration: actions already given stay, everyone else in `us` looks around. */
  function Pended(m: map<string, string>, us: set<string>): (r: map<string, string>)
    ensures r.Keys == m.Keys + us
    ensures forall u :: u in m ==> r[u] == m[u]
    ensures forall u :: u in us && u !in m ==> r[u] == LookAround
  {
    map u | u in m.Keys + us :: if u in m then m[u] else LookAround
  }

  /** One more player: nothing changes when it already has an action, otherwise it looks around. */
  lemma PendedAdd(m: map<string, string>, us: set<string>, w: string)
    ensures Pended(m, us + {w}) == if w in Pended(m, us) then Pended(m, us) else Pended(m, us)[w := LookAround]
  {
    var r, r' := Pended(m, us), Pended(m, us + {w});
    if w in r {
      assert r'.Keys == r.Keys;
      forall u | u in r ensures r'[u] == r[u] {
      }
    } else {
      assert r'.Keys == r.Keys + {w};
      forall u | u in r' ensures r'[u] == r[w := LookAround][u] {
      }
    }
  }

  /** `visited_players` is everyone gathered so far. */
  ghost predicate Gathered(visited: set<string>, groups: seq<Group>)
  {
    forall u :: u in visited <==> exists k :: 0 <= k < |groups| && u in groups[k].members
  }

  /** Components of different groups share no name. */
  ghost predicate Apart(groups: seq<Group>)
  {
    forall i, j, x :: 0 <= i < j < |groups| && x in groups[i].key ==> x !in groups[j].key
  }

  /**
   * The inner loop of the partition: the players found whose names are not
   * yet visited are appended to a group's `members`, in the order found, and
   * become visited.
   */
  method AddUnvisited(members: seq<string>, found: seq<Player>, visited: set<string>)
    returns (members': seq<string>, visited': set<string>)
    ensures |members| <= |members'| && members'[..|members|] == members
    ensures forall w :: w in members' <==> w in members || (w in Usernames(found) && w !in visited)
    ensures visited' == visited + Usernames(found)
    ensures NoDuplicates(members) && (forall w :: w in members ==> w in visited) ==> NoDuplicates(members')
  {
    members', visited' := members, visited;
    var i := 0;
    while i < |found|
      invariant 0 <= i <= |found|
      invariant |members| <= |members'| && members'[..|members|] == members
      invariant forall w :: w in members' <==> w in members || (w in Usernames(found[..i]) && w !in visited)
      invariant visited' == visited + Usernames(found[..i])
      invariant NoDuplicates(members) && (forall w :: w in members ==> w in visited) ==>
                  NoDuplicates(members') && forall w :: w in members' ==> w in visited'
    {
      assert Usernames(found[..i + 1]) == Usernames(found[..i]) + {found[i].username} by {
        assert found[..i + 1] == found[..i] + [found[i]];
      }
      var w := found[i].username;
      if w !in visited' {
        members' := members' + [w];
        visited' := visited' + {w};
      }
      i := i + 1;
    }
    assert found[..i] == found;
  }

  /** `u` is registered and names a location: a player the partition takes into account. */
  ghost predicate Playing(where: map<string, Option<string>>, u: string)
  {
    u in where && Truthy(where[u])
  }

  /**
   * Group `gr` is the connected component of `seed`, one of the location
   * names `names`, in `graph`; its members are, once each, exactly the
   * playing players standing in that component according to `where`.
   */
  ghost predicate GroupOk(gr: Group, seed: string, where: map<string, Option<string>>, graph: Adjacency, names: set<string>)
  {
    && seed in names && seed in gr.key
    && (forall x :: x in gr.key <==> Reachable(graph, seed, x))
    && (forall x :: x in gr.key ==> x in names)
    && NoDuplicates(gr.members)
    && (forall u :: u in gr.members <==> Playing(where, u) && where[u].value in gr.key)
  }

  /** The partition so far: each group is right for its seed, and components of different groups share no name. */
  ghost predicate Grouping(groups: seq<Group>, seeds: seq<string>, where: map<string, Option<string>>, graph: Adjacency,
                           names: set<string>)
  {
    && |seeds| == |groups|
    && (forall k :: 0 <= k < |groups| ==> GroupOk(groups[k], seeds[k], where, graph, names))
    && Apart(groups)
  }

  /** Every playing player is a member of some group. */
  ghost predicate Covered(groups: seq<Group>, where: map<string, Option<string>>)
  {
    forall u :: Playing(where, u) ==> exists k :: 0 <= k < |groups| && u in groups[k].members
  }

  /** The partition loop's invariant: the groups so far, and every playing player outside `rest` gathered. */
  ghost predicate Grouped(groups: seq<Group>, seeds: seq<string>, visited: set<string>, rest: set<string>,
                          where: map<string, Option<string>>, g: Adjacency, names: set<string>)
  {
    Grouping(groups, seeds, where, g, names) && Gathered(visited, groups)
    && forall u :: Playing(where, u) && u !in rest ==> u in visited
  }

  /** One more player taken from `rest` by a step that keeps the partition and gathers that player. */
  lemma GroupedStep(groups: seq<Group>, seeds: seq<string>, visited: set<string>, rest: set<string>, u: string,
                    groups': seq<Group>, seeds': seq<string>, visited': set<string>,
                    where: map<string, Option<string>>, g: Adjacency, names: set<string>)
    requires Grouped(groups, seeds, visited, rest, where, g, names)
    requires Grouping(groups', seeds', where, g, names) && Gathered(visited', groups')
    requires visited <= visited' && (Playing(where, u) ==> u in visited')
    ensures Grouped(groups', seeds', visited', rest - {u}, where, g, names)
  {
  }

  /** Before the first step nothing is gathered and every player is still to be taken. */
  lemma GroupedStart(where: map<string, Option<string>>, g: Adjacency, names: set<string>)
    ensures Grouped([], [], {}, where.Keys, where, g, names)
  {
  }

  /** Once every player is taken, the groups cover all playing players. */
  lemma GroupedDone(groups: seq<Group>, seeds: seq<string>, visited: set<string>,
                    where: map<string, Option<string>>, g: Adjacency, names: set<string>)
    requires Grouped(groups, seeds, visited, {}, where, g, names)
    ensures Grouping(groups, seeds, where, g, names) && Covered(groups, where)
  {
    VisitedCovered(where, visited, groups);
  }

  /** Groups that gathered every playing player cover them all. */
  lemma VisitedCovered(where: map<string, Option<string>>, visited: set<string>, groups: seq<Group>)
    requires Gathered(visited, groups)
    requires forall u :: Playing(where, u) ==> u in visited
    ensures Covered(groups, where)
  {
    forall u | Playing(where, u) ensures exists k :: 0 <= k < |groups| && u in groups[k].members {
      assert u in visited;
    }
  }

  /** `comp` is the component of the location `n` and shares no name with the groups so far. */
  ghost predicate Unclaimed(groups: seq<Group>, comp: set<string>, n: string, graph: Adjacency, names: set<string>)
  {
    && n in names && n in comp
    && (forall x :: x in comp <==> Reachable(graph, n, x))
    && (forall x :: x in comp ==> x in names)
    && (forall k, x :: 0 <= k < |groups| && x in groups[k].key ==> x !in comp)
  }

  /** A new group for the component `comp` of `n`, holding the unvisited players found there, extends the partition. */
  lemma GroupingExtended(groups: seq<Group>, seeds: seq<string>, visited: set<string>, comp: set<string>, n: string,
                         found: seq<Player>, members: seq<string>, visited': set<string>,
                         where: map<string, Option<string>>, graph: Adjacency, names: set<string>)
    requires Grouping(groups, seeds, where, graph, names) && Gathered(visited, groups)
    requires Unclaimed(groups, comp, n, graph, names)
    requires forall w :: w in Usernames(found) <==> Playing(where, w) && where[w].value in comp
    requires forall w :: w in members <==> w in Usernames(found) && w !in visited
    requires NoDuplicates(members)
    requires visited' == visited + Usernames(found)
    ensures Grouping(groups + [Group(comp, members)], seeds + [n], where, graph, names)
    ensures Gathered(visited', groups + [Group(comp, members)])
  {
    var m := |groups|;
    var seeds' := seeds + [n];
    var groups' := groups + [Group(comp, members)];
    forall w | w in Usernames(found) ensures w !in visited {
      forall k | 0 <= k < m ensures w !in groups[k].members {
        assert GroupOk(groups[k], seeds[k], where, graph, names);
      }
    }
    forall k | 0 <= k < |groups'| ensures GroupOk(groups'[k], seeds'[k], where, graph, names) {
      if k < m {
        assert groups'[k] == groups[k] && seeds'[k] == seeds[k];
      }
    }
    forall i, j, x | 0 <= i < j < |groups'| && x in groups'[i].key ensures x !in groups'[j].key {
      assert groups'[i] == groups[i];
      if j < m {
        assert groups'[j] == groups[j];
      }
    }
    GatheredExtended(groups, visited, comp, members, visited');
  }

  /** Gathering the new group's members: the visited set grows by exactly them. */
  lemma GatheredExtended(groups: seq<Group>, visited: set<string>, comp: set<string>, members: seq<string>, visited': set<string>)
    requires Gathered(visited, groups)
    requires forall w :: w in visited' <==> w in visited || w in members
    ensures Gathered(visited', groups + [Group(comp, members)])
  {
    var m := |groups|;
    var groups' := groups + [Group(comp, members)];
    forall w ensures w in visited' <==> exists k :: 0 <= k < |groups'| && w in groups'[k].members {
      if w in visited {
        var k :| 0 <= k < m && w in groups[k].members;
        assert groups'[k] == groups[k];
      }
      if w in visited' && w !in visited {
        assert w in groups'[m].members;
      }
      if exists k :: 0 <= k < |groups'| && w in groups'[k].members {
        var k :| 0 <= k < |groups'| && w in groups'[k].members;
        if k < m {
          assert groups'[k] == groups[k];
        }
      }
    }
  }

  /**
   * The dictionary half of one partition step: `player_groups` gets an
   * entry for the component `comp` when it has none, and the unvisited
   * players found there are appended to it.
   */
  method FileComponent(groups: seq<Group>, ghost seeds: seq<string>, visited: set<string>, comp: set<string>, ghost n: string,
                       found: seq<Player>, ghost where: map<string, Option<string>>, ghost graph: Adjacency,
                       ghost names: set<string>)
    returns (groups': seq<Group>, ghost seeds': seq<string>, visited': set<string>)
    requires Grouping(groups, seeds, where, graph, names) && Gathered(visited, groups)
    requires Unclaimed(groups, comp, n, graph, names)
    requires forall w :: w in Usernames(found) <==> Playing(where, w) && where[w].value in comp
    ensures Grouping(groups', seeds', where, graph, names) && Gathered(visited', groups')
    ensures visited' == visited + Usernames(found)
  {
    groups', seeds' := groups, seeds;
    var idx := KeyIndex(groups, comp);
    assert forall k :: 0 <= k < |groups| ==> n !in groups[k].key;
    if idx == |groups| {
      groups' := groups + [Group(comp, [])];
      seeds' := seeds + [n];
    }
    var members;
    members, visited' := AddUnvisited(groups'[idx].members, found, visited);
    groups' := groups'[idx := Group(comp, members)];
    assert groups' == groups + [Group(comp, members)];
    GroupingExtended(groups, seeds, visited, comp, n, found, members, visited', where, graph, names);
  }

  /** What the dispatcher reads off a group's locations: who has an action pending, and which turn counters they show. */
  datatype Survey = Survey(actors: set<string>, counters: set<nat>)

  /** The parts of the world a pass of the group check reads. */
  datatype Snapshot = Snapshot(where: map<string, Option<string>>, graph: Adjacency, names: set<string>, surveys: seq<Survey>)

  /** A pass over `v` took `log0` and `locks0` to `log` and `locks`: the groups partition the playing players and the decisions were appended. */
  ghost predicate CheckedWith(groups: seq<Group>, seeds: seq<string>, v: Snapshot, log: seq<Decision>, locks: set<set<string>>,
                              log0: seq<Decision>, locks0: set<set<string>>)
  {
    && Grouping(groups, seeds, v.where, v.graph, v.names)
    && Covered(groups, v.where)
    && |v.surveys| == |groups|
    && log == log0 + Verdicts(groups, v.surveys, locks0)
    && locks == locks0 + DispatchedKeys(Verdicts(groups, v.surveys, locks0))
  }

  /** A group the dispatcher hands to a turn: not locked, not empty, and at least as many actors as members. */
  predicate Ready(g: Group, locks: set<set<string>>, sv: Survey)
  {
    g.key !in locks && g.members != [] && |sv.actors| >= |g.members|
  }

  /**
   * The dispatcher's decision for one group: nothing for a locked or empty
   * group, a turn (a merge turn when the counters differ) for a ready one,
   * and otherwise the waiting notice to everyone but the actors.
   */
  function Verdict(g: Group, locks: set<set<string>>, sv: Survey): (r: seq<Decision>)
    ensures Ready(g, locks, sv) <==> r == [Dispatched(g.key, |sv.counters| > 1)]
    ensures (!Ready(g, locks, sv) && g.key !in locks && g.members != []) <==> r == [Waiting(g.key, sv.actors)]
    ensures (g.key in locks || g.members == []) <==> r == []
  {
    if g.key in locks || g.members == [] then []
    else if |sv.actors| >= |g.members| then [Dispatched(g.key, |sv.counters| > 1)]
    else [Waiting(g.key, sv.actors)]
  }

  function DispatchedKeys(ds: seq<Decision>): set<set<string>>
  {
    set d | d in ds && d.Dispatched? :: d.key
  }

  /** The decisions of one pass over `groups`, in order, each group judged against the locks taken so far. */
  function Verdicts(groups: seq<Group>, svs: seq<Survey>, locks: set<set<string>>): seq<Decision>
    requires |svs| == |groups|
  {
    if groups == [] then []
    else
      var prev := Verdicts(groups[..|groups| - 1], svs[..|svs| - 1], locks);
      prev + Verdict(groups[|groups| - 1], locks + DispatchedKeys(prev), svs[|svs| - 1])
  }

  /** Every decision of a pass names one of its groups. */
  lemma {:induction false} VerdictsKeys(groups: seq<Group>, svs: seq<Survey>, locks: set<set<string>>)
    requires |svs| == |groups|
    ensures forall d :: d in Verdicts(groups, svs, locks) ==> exists k :: 0 <= k < |groups| && d.key == groups[k].key
  {
    if groups != [] {
      var m := |groups| - 1;
      VerdictsKeys(groups[..m], svs[..m], locks);
      forall d | d in Verdicts(groups, svs, locks) ensures exists k :: 0 <= k < |groups| && d.key == groups[k].key {
        if d in Verdicts(groups[..m], svs[..m], locks) {
          var k :| 0 <= k < m && d.key == groups[..m][k].key;
          assert d.key == groups[k].key;
        } else {
          assert d.key == groups[m].key;
        }
      }
    }
  }

  /**
   * At most one turn per key: a pass never dispatches a key that was locked
   * before it, nor the same key twice.
   */
  lemma {:induction false} NoDoubleDispatch(groups: seq<Group>, svs: seq<Survey>, locks: set<set<string>>)
    requires |svs| == |groups|
    ensures forall d :: d in Verdicts(groups, svs, locks) && d.Dispatched? ==> d.key !in locks
    ensures forall i, j ::
              (0 <= i < j < |Verdicts(groups, svs, locks)| &&
               Verdicts(groups, svs, locks)[i].Dispatched? && Verdicts(groups, svs, locks)[j].Dispatched?) ==>
              Verdicts(groups, svs, locks)[i].key != Verdicts(groups, svs, locks)[j].key
  {
    if groups != [] {
      var m := |groups| - 1;
      var prev := Verdicts(groups[..m], svs[..m], locks);
      var last := Verdict(groups[m], locks + DispatchedKeys(prev), svs[m]);
      NoDoubleDispatch(groups[..m], svs[..m], locks);
      assert Verdicts(groups, svs, locks) == prev + last;
      forall i, j | 0 <= i < j < |prev + last| && (prev + last)[i].Dispatched? && (prev + last)[j].Dispatched?
        ensures (prev + last)[i].key != (prev + last)[j].key
      {
        assert |last| <= 1;
        if j >= |prev| {
          assert i < |prev|;
          var d := (prev + last)[i];
          assert d in prev;
          assert d.key in DispatchedKeys(prev);
          assert (prev + last)[j] == last[0];
          assert Ready(groups[m], locks + DispatchedKeys(prev), svs[m]);
          assert last[0].key == groups[m].key;
          assert (prev + last)[i].key != (prev + last)[j].key;
        } else {
          assert (prev + last)[i] == prev[i] && (prev + last)[j] == prev[j];
          assert prev[i].key != prev[j].key;
        }
      }
    }
  }

  /**
   * With distinct keys, the pass dispatches a group exactly when that group
   * is ready, and sends it the waiting notice exactly when it is unlocked
   * and non-empty but not ready.
   */
  lemma {:induction false} DispatchedIffReady(groups: seq<Group>, svs: seq<Survey>, locks: set<set<string>>, k: nat)
    requires |svs| == |groups| && k < |groups|
    requires forall i, j :: 0 <= i < j < |groups| ==> groups[i].key != groups[j].key
    ensures Dispatched(groups[k].key, |svs[k].counters| > 1) in Verdicts(groups, svs, locks) <==> Ready(groups[k], locks, svs[k])
    ensures Waiting(groups[k].key, svs[k].actors) in Verdicts(groups, svs, locks) <==>
              !Ready(groups[k], locks, svs[k]) && groups[k].key !in locks && groups[k].members != []
  {
    var m := |groups| - 1;
    var prev := Verdicts(groups[..m], svs[..m], locks);
    assert Verdicts(groups, svs, locks) == prev + Verdict(groups[m], locks + DispatchedKeys(prev), svs[m]);
    VerdictsKeys(groups[..m], svs[..m], locks);
    forall d | d in prev ensures d.key != groups[m].key {
      var i :| 0 <= i < m && d.key == groups[..m][i].key;
      assert groups[..m][i] == groups[i];
    }
    assert groups[m].key !in DispatchedKeys(prev);
    if k < m {
      DispatchedIffReady(groups[..m], svs[..m], locks, k);
      assert groups[..m][k] == groups[k] && svs[..m][k] == svs[k];
      assert groups[k].key != groups[m].key;
    }
  }

  lemma DispatchedKeysAppend(a: seq<Decision>, b: seq<Decision>)
    ensures DispatchedKeys(a + b) == DispatchedKeys(a) + DispatchedKeys(b)
  {
    assert forall d :: d in a + b <==> d in a || d in b;
  }

  /** Groups of a partition have distinct keys: each key holds its own seed and no other group's names. */
  lemma GroupingKeysDistinct(groups: seq<Group>, seeds: seq<string>, where: map<string, Option<string>>, graph: Adjacency,
                             names: set<string>)
    requires Grouping(groups, seeds, where, graph, names)
    ensures forall i, j :: 0 <= i < j < |groups| ==> groups[i].key != groups[j].key
  {
    forall i, j | 0 <= i < j < |groups| ensures groups[i].key != groups[j].key {
      assert GroupOk(groups[i], seeds[i], where, graph, names);
    }
  }

  class GameEngine {
    const state: GameState
    var turnProcessingLocks: set<set<string>>
    /** The turns handed to the nursery, the waiting notices sent and the turns finished, in order. */
    ghost var log: seq<Decision>

    constructor (state: GameState)
      ensures this.state == state && turnProcessingLocks == {} && log == []
    {
      this.state := state;
      turnProcessingLocks := {};
      log := [];
    }

    /**
     * The recording half of `handle_player_action`: a player that is not
     * registered or names no location is ignored; a second action while one
     * is pending is refused; otherwise the action becomes the player's pending
     * action and its one ACTION line is appended to the location's history.
     */
    method RecordAction(u: string, action: string) returns (outcome: ActionOutcome)
      requires state.Valid()
      modifies state.PlayerLoc(u)`pendingActions, state.PlayerLoc(u)`conversationHistory
      ensures state.Valid()
      ensures outcome == Ignored <==> !(u in state.players && Truthy(state.players[u].locationName))
      ensures outcome != Ignored ==>
                var n := state.players[u].locationName.value;
                && n in state.locations
                && (outcome == AlreadyActed <==> u in old(state.locations[n].pendingActions))
      ensures outcome != Recorded ==> unchanged(state.PlayerLoc(u))
      ensures outcome == Recorded ==>
                var l := state.locations[state.players[u].locationName.value];
                && l.pendingActions == old(l.pendingActions)[u := action]
                && l.conversationHistory == old(l.conversationHistory) + [ActionEntry(u, action)]
    {
      if u !in state.players {
        return Ignored;
      }
      var p := state.players[u];
      if !Truthy(p.locationName) {
        return Ignored;
      }
      var loc := state.locations[p.locationName.value];
      if u in loc.pendingActions {
        return AlreadyActed;
      }
      loc.pendingActions := loc.pendingActions[u := action];
      loc.AddPlayerActionToHistory(u, action);
      outcome := Recorded;
      assert state.locations[loc.name] == loc;
    }

    /** The status-effect loop of `_process_turn`: each player's effects are ticked once. */
    method TickPlayers(ps: seq<Player>) returns (msgs: seq<string>)
      requires forall i, j :: 0 <= i < j < |ps| ==> ps[i] != ps[j]
      modifies (set p | p in ps)`statusEffects
      ensures forall p :: p in ps ==> p.statusEffects == Ticked(old(p.statusEffects))
      ensures msgs == old(ExpiryLog(ps))
    {
      ghost var e0 := EffectsOf(ps);
      ghost var t0 := seq(|ps|, k requires 0 <= k < |ps| => Ticked(e0[k]));
      var names := UsernamesOf(ps);
      msgs := [];
      var i := 0;
      while i < |ps|
        invariant 0 <= i <= |ps|
        invariant forall k :: 0 <= k < i ==> ps[k].statusEffects == t0[k]
        invariant forall k :: i <= k < |ps| ==> ps[k].statusEffects == e0[k]
        invariant msgs == ExpiryLogOf(e0[..i], names[..i])
      {
        var p := ps[i];
        ExpiryLogStep(e0, names, i);
        msgs := msgs + ExpiryMessages(Tick(p.statusEffects).1, p.username);
        p.statusEffects := Ticked(p.statusEffects);
        i := i + 1;
      }
      assert e0[..i] == e0 && names[..i] == names;
    }

    /** `main_location.add_system_message_to_history(msg)` for each expiry message, in order. */
    method RecordExpiries(main: Location, msgs: seq<string>)
      modifies main`conversationHistory
      ensures main.conversationHistory == old(main.conversationHistory) + SystemEntries(msgs)
    {
      var i := 0;
      while i < |msgs|
        invariant 0 <= i <= |msgs|
        invariant main.conversationHistory == old(main.conversationHistory) + SystemEntries(msgs[..i])
      {
        main.AddSystemMessageToHistory(msgs[i]);
        assert SystemEntries(msgs[..i + 1]) == SystemEntries(msgs[..i]) + [SystemEntry(msgs[i])];
        i := i + 1;
      }
      assert msgs[..i] == msgs;
    }

    /** `for loc in group_locations: loc.turn_counter += 1`. */
    method CountTurn(group: seq<Location>)
      requires DistinctLocations(group) && state.Valid()
      modifies (set l | l in group)`turnCounter
      ensures state.Valid()
      ensures forall l :: l in group ==> l.turnCounter == old(l.turnCounter) + 1
    {
      var i := 0;
      while i < |group|
        invariant 0 <= i <= |group|
        invariant forall k :: 0 <= k < i ==> group[k].turnCounter == old(group[k].turnCounter) + 1
        invariant forall k :: i <= k < |group| ==> group[k].turnCounter == old(group[k].turnCounter)
      {
        group[i].turnCounter := group[i].turnCounter + 1;
        i := i + 1;
      }
    }

    /**
     * The idle fill at one location: every present player without a pending
     * action gets the idle action and its ACTION line, in the order `order`
     * the set was walked.
     */
    method FillIdleAt(loc: Location) returns (ghost order: seq<string>)
      modifies loc`pendingActions, loc`conversationHistory
      ensures IdleFilled(loc, old(loc.pendingActions), order)
      ensures loc.conversationHistory == old(loc.conversationHistory) + IdleEntries(order)
    {
      var present := Enumerate(loc.playersPresent);
      order := [];
      var i := 0;
      while i < |present|
        invariant 0 <= i <= |present|
        invariant NoDuplicates(order) && forall u :: u in order <==> u in present[..i] && u !in old(loc.pendingActions)
        invariant loc.pendingActions.Keys == old(loc.pendingActions.Keys) + set k | 0 <= k < i :: present[k]
        invariant forall u :: u in old(loc.pendingActions) ==> loc.pendingActions[u] == old(loc.pendingActions[u])
        invariant forall u :: u in order ==> loc.pendingActions[u] == Idle
        invariant loc.conversationHistory == old(loc.conversationHistory) + IdleEntries(order)
      {
        var u := present[i];
        assert present[..i + 1] == present[..i] + [u];
        if u !in loc.pendingActions {
          assert u !in present[..i];
          loc.pendingActions := loc.pendingActions[u := Idle];
          loc.AddPlayerActionToHistory(u, Idle);
          assert IdleEntries(order + [u]) == IdleEntries(order) + [ActionEntry(u, Idle)];
          order := order + [u];
        }
        i := i + 1;
      }
      assert present[..i] == present;
      assert (set k | 0 <= k < i :: present[k]) == loc.playersPresent;
    }

    /** The idle fill over the whole group: afterwards every present player there has an action. */
    method FillIdle(group: seq<Location>) returns (ghost orders: seq<seq<string>>)
      requires DistinctLocations(group) && state.Valid() && Current(group)
      modifies (set l | l in group)`pendingActions, (set l | l in group)`conversationHistory
      ensures state.Valid()
      ensures forall l :: l in group ==> l.pendingActions.Keys == l.playersPresent
      ensures |orders| == |group|
      ensures forall k :: 0 <= k < |group| ==> IdleFilled(group[k], old(group[k].pendingActions), orders[k])
      ensures forall k :: 0 <= k < |group| ==>
                group[k].conversationHistory == old(group[k].conversationHistory) + IdleEntries(orders[k])
    {
      orders := FillIdleEach(group);
      assert state.PendingPresent() by {
        forall n | n in state.locations
          ensures state.locations[n].pendingActions.Keys <= state.locations[n].playersPresent
        {
          var l := state.locations[n];
          assert l in old(state.locations.Values);
          if l in group {
            var k :| 0 <= k < |group| && group[k] == l;
            assert IdleFilled(l, old(l.pendingActions), orders[k]);
          }
        }
      }
    }

    /** The loop of the idle fill, location by location. */
    method FillIdleEach(group: seq<Location>) returns (ghost orders: seq<seq<string>>)
      requires DistinctLocations(group)
      modifies (set l | l in group)`pendingActions, (set l | l in group)`conversationHistory
      ensures |orders| == |group|
      ensures forall k :: 0 <= k < |group| ==> IdleFilled(group[k], old(group[k].pendingActions), orders[k])
      ensures forall k :: 0 <= k < |group| ==>
                group[k].conversationHistory == old(group[k].conversationHistory) + IdleEntries(orders[k])
    {
      orders := [];
      var i := 0;
      while i < |group|
        invariant 0 <= i <= |group| && |orders| == i
        invariant forall k :: 0 <= k < i ==> IdleFilled(group[k], old(group[k].pendingActions), orders[k])
        invariant forall k :: 0 <= k < i ==>
                    group[k].conversationHistory == old(group[k].conversationHistory) + IdleEntries(orders[k])
        invariant forall k :: i <= k < |group| ==> unchanged(group[k])
      {
        var order := FillIdleAt(group[i]);
        orders := orders + [order];
        i := i + 1;
      }
    }

    /** `for loc in group_locations: loc.turn_counter = final_turn`. */
    method Synchronise(group: seq<Location>, c: nat)
      requires DistinctLocations(group)
      modifies (set l | l in group)`turnCounter
      ensures forall l :: l in group ==> l.turnCounter == c
    {
      var i := 0;
      while i < |group|
        invariant 0 <= i <= |group|
        invariant forall k :: 0 <= k < i ==> group[k].turnCounter == c
      {
        group[i].turnCounter := c;
        i := i + 1;
      }
    }

    /** `for loc in group_locations: loc.clear_turn_data()`. */
    method ClearGroup(group: seq<Location>)
      requires DistinctLocations(group) && state.Valid()
      modifies (set l | l in group)`pendingActions
      ensures state.Valid()
      ensures forall l :: l in group ==> l.pendingActions == map[]
    {
      var i := 0;
      while i < |group|
        invariant 0 <= i <= |group|
        invariant forall k :: 0 <= k < i ==> group[k].pendingActions == map[]
        invariant forall l {:trigger l.pendingActions} :: l in old(state.locations.Values) && l !in group ==>
                    l.pendingActions == old(l.pendingActions)
      {
        group[i].ClearTurnData();
        i := i + 1;
      }
      assert state.PendingPresent() by {
        forall n | n in state.locations
          ensures state.locations[n].pendingActions.Keys <= state.locations[n].playersPresent
        {
          assert state.locations[n] in old(state.locations.Values);
        }
      }
    }

    /**
     * The `finally` block of `_process_turn`: on a merge turn every counter
     * of the group becomes the previous maximum plus one, so the next turn is
     * not a merge; every pending action of the group is cleared and the
     * group's key is released.
     */
    method FinishTurn(group: seq<Location>, merge: bool)
      requires |group| > 0 && DistinctLocations(group) && state.Valid()
      modifies (set l | l in group)`turnCounter, (set l | l in group)`pendingActions, this`turnProcessingLocks, this`log
      ensures state.Valid()
      ensures merge ==> (forall l :: l in group ==> l.turnCounter == old(MaxCounter(group)) + 1) && |Counters(group)| == 1
      ensures !merge ==> forall l :: l in group ==> l.turnCounter == old(l.turnCounter)
      ensures forall l :: l in group ==> l.pendingActions == map[]
      ensures turnProcessingLocks == old(turnProcessingLocks) - {KeyOf(group)}
      ensures log == old(log) + [Finished(KeyOf(group))]
    {
      var key := KeyOf(group);
      if merge {
        MergeCounters(group);
      }
      ClearGroup(group);
      turnProcessingLocks := turnProcessingLocks - {key};
      log := log + [Finished(key)];
    }

    /** The merge half of the turn's end: every counter of the group moves to one past the highest. */
    method MergeCounters(group: seq<Location>)
      requires |group| > 0 && DistinctLocations(group) && state.Valid()
      modifies (set l | l in group)`turnCounter
      ensures state.Valid()
      ensures forall l :: l in group ==> l.turnCounter == old(MaxCounter(group)) + 1
      ensures |Counters(group)| == 1
    {
      var finalTurn := MaxCounter(group) + 1;
      Synchronise(group, finalTurn);
      SameCounterNoMerge(group, finalTurn);
    }

    /** The group's location objects are the world's locations under their names. */
    ghost predicate Current(group: seq<Location>)
      reads state`locations
    {
      forall l :: l in group ==> l.name in state.locations && state.locations[l.name] == l
    }

    /**
     * `get_players_in_locations(group_key)` at the start of `_process_turn`,
     * with the key walked in some order: the registered players present in
     * the group, each once.
     */
    method FindPlayers(group: seq<Location>) returns (ps: seq<Player>)
      requires state.Valid()
      ensures forall p :: p in ps <==>
                p.username in state.players && state.players[p.username] == p &&
                exists n :: n in KeyOf(group) && p.username in state.RegisteredAt(n)
      ensures forall i, j :: 0 <= i < j < |ps| ==> ps[i] != ps[j]
    {
      var names := Enumerate(KeyOf(group));
      ps := state.GetPlayersInLocations(names);
    }

    /**
     * `_process_turn` from the status effects to the idle fill, for a group
     * with players `ps`: each of them has its status effects ticked once, the
     * expiry messages go to the first location's history, every counter goes
     * up by one unless this is a merge turn, and every present player without
     * an action gets the idle one, so afterwards every present player has
     * acted.
     */
    method OpenTurn(group: seq<Location>, ps: seq<Player>, merge: bool) returns (ghost orders: seq<seq<string>>)
      requires |group| > 0 && DistinctLocations(group) && state.Valid() && Current(group)
      requires forall i, j :: 0 <= i < j < |ps| ==> ps[i] != ps[j]
      modifies (set p | p in ps)`statusEffects, (set l | l in group)`conversationHistory,
               (set l | l in group)`turnCounter, (set l | l in group)`pendingActions
      ensures state.Valid()
      ensures forall p :: p in ps ==> p.statusEffects == Ticked(old(p.statusEffects))
      ensures !merge ==> forall l :: l in group ==> l.turnCounter == old(l.turnCounter) + 1
      ensures merge ==> forall l :: l in group ==> l.turnCounter == old(l.turnCounter)
      ensures |orders| == |group| && forall k :: 0 <= k < |group| ==> IdleFilled(group[k], old(group[k].pendingActions), orders[k])
      ensures forall l :: l in group ==> l.pendingActions.Keys == l.playersPresent
      ensures group[0].conversationHistory ==
                old(group[0].conversationHistory) + SystemEntries(old(ExpiryLog(ps))) + IdleEntries(orders[0])
      ensures forall k :: 1 <= k < |group| ==>
                group[k].conversationHistory == old(group[k].conversationHistory) + IdleEntries(orders[k])
    {
      TickAndRecord(group[0], ps);
      if !merge {
        CountTurn(group);
      }
      orders := FillIdle(group);
    }

    /** The ticks and, when some effect ran out, the expiry messages in the first location's history. */
    method TickAndRecord(main: Location, ps: seq<Player>)
      requires forall i, j :: 0 <= i < j < |ps| ==> ps[i] != ps[j]
      requires state.Valid()
      modifies (set p | p in ps)`statusEffects, main`conversationHistory
      ensures state.Valid()
      ensures forall p :: p in ps ==> p.statusEffects == Ticked(old(p.statusEffects))
      ensures main.conversationHistory == old(main.conversationHistory) + SystemEntries(old(ExpiryLog(ps)))
    {
      var msgs := TickPlayers(ps);
      if msgs != [] {
        RecordExpiries(main, msgs);
      } else {
        assert SystemEntries(msgs) == [];
      }
    }

    /** Where each registered player stands, by username. */
    ghost function Places(): (r: map<string, Option<string>>)
      reads state`players, state.players.Values`locationName
      ensures r.Keys == state.players.Keys
      ensures forall u :: u in r ==> r[u] == state.players[u].locationName
    {
      map u | u in state.players :: state.players[u].locationName
    }

    /** The players `get_players_in_locations` finds for an enumeration of a component are the playing players standing in it. */
    lemma ComponentPlayers(comp: set<string>, names: seq<string>, found: seq<Player>)
      requires state.Valid()
      requires forall x :: x in names <==> x in comp
      requires forall p :: p in found <==>
                 p.username in state.players && state.players[p.username] == p &&
                 exists i :: 0 <= i < |names| && p.username in state.RegisteredAt(names[i])
      ensures forall w :: w in Usernames(found) <==> Playing(Places(), w) && Places()[w].value in comp
    {
      forall w ensures w in Usernames(found) <==> Playing(Places(), w) && Places()[w].value in comp {
        if w in Usernames(found) {
          var p :| p in found && p.username == w;
          var i :| 0 <= i < |names| && w in state.RegisteredAt(names[i]);
          assert w in state.locations[names[i]].playersPresent;
        }
        if Playing(Places(), w) && Places()[w].value in comp {
          var n := state.players[w].locationName.value;
          var i :| 0 <= i < |names| && names[i] == n;
          assert w in state.RegisteredAt(names[i]);
          assert state.players[w] in found;
        }
      }
    }

    /** `get_players_in_locations(component)`, with the component walked in some order: its playing players. */
    method PlayersIn(comp: set<string>, ghost where: map<string, Option<string>>) returns (found: seq<Player>)
      requires state.Valid() && where == Places()
      ensures forall w :: w in Usernames(found) <==> Playing(where, w) && where[w].value in comp
    {
      var names := Enumerate(comp);
      found := state.GetPlayersInLocations(names);
      ComponentPlayers(comp, names, found);
    }

    /**
     * `get_connected_component` for the location `n` of an unvisited
     * playing player: a component of existing locations that shares no name
     * with any group gathered so far.
     */
    method NewComponent(groups: seq<Group>, ghost seeds: seq<string>, ghost visited: set<string>, u: string, n: string)
      returns (comp: set<string>)
      requires state.Valid() && Grouping(groups, seeds, Places(), state.graph, state.locations.Keys) && Gathered(visited, groups)
      requires Playing(Places(), u) && Places()[u] == Some(n) && u !in visited
      ensures Unclaimed(groups, comp, n, state.graph, state.locations.Keys)
    {
      ghost var g := state.graph;
      ghost var where := Places();
      assert n in state.locations;
      comp := state.GetConnectedComponent(n);
      forall k | 0 <= k < |groups| ensures u !in groups[k].members && !Reachable(g, seeds[k], n) {
        assert GroupOk(groups[k], seeds[k], where, g, state.locations.Keys);
      }
      forall k, x | 0 <= k < |groups| && x in groups[k].key ensures x !in comp {
        assert GroupOk(groups[k], seeds[k], where, g, state.locations.Keys);
        ComponentsApart(g, seeds[k], n, x);
      }
      forall x | x in comp ensures x in state.locations {
        ReachableStaysInGraph(g, n, x);
      }
    }

    /**
     * One player of the partition loop: a visited or location-less player
     * is skipped; otherwise its component, which no group holds yet, gets a
     * group of its own with every playing player standing in it.
     */
    method GroupStep(groups: seq<Group>, ghost seeds: seq<string>, visited: set<string>, ghost rest: set<string>, u: string,
                     ghost where: map<string, Option<string>>, ghost g: Adjacency, ghost names: set<string>)
      returns (groups': seq<Group>, ghost seeds': seq<string>, visited': set<string>)
      requires state.Valid() && u in state.players
      requires where == Places() && g == state.graph && names == state.locations.Keys
      requires Grouped(groups, seeds, visited, rest, where, g, names)
      ensures Grouped(groups', seeds', visited', rest - {u}, where, g, names)
    {
      groups', seeds', visited' := GatherOne(groups, seeds, visited, u, where, g, names);
      GroupedStep(groups, seeds, visited, rest, u, groups', seeds', visited', where, g, names);
    }

    /** The component of `u`'s location, filed unless `u` is already gathered or not playing. */
    method GatherOne(groups: seq<Group>, ghost seeds: seq<string>, visited: set<string>, u: string,
                     ghost where: map<string, Option<string>>, ghost g: Adjacency, ghost names: set<string>)
      returns (groups': seq<Group>, ghost seeds': seq<string>, visited': set<string>)
      requires state.Valid() && u in state.players
      requires where == Places() && g == state.graph && names == state.locations.Keys
      requires Grouping(groups, seeds, where, g, names) && Gathered(visited, groups)
      ensures Grouping(groups', seeds', where, g, names) && Gathered(visited', groups')
      ensures visited <= visited' && (Playing(where, u) ==> u in visited')
    {
      groups', seeds', visited' := groups, seeds, visited;
      var p := state.players[u];
      if u in visited || !Truthy(p.locationName) {
        return;
      }
      var n := p.locationName.value;
      var comp := NewComponent(groups, seeds, visited, u, n);
      var found := PlayersIn(comp, where);
      groups', seeds', visited' := FileComponent(groups, seeds, visited, comp, n, found, where, g, names);
    }

    /**
     * The first half of `_check_and_process_all_groups`: the groups are
     * distinct components of existing locations, and every playing player
     * lands, once, in exactly the group of its location's component.
     */
    method Partition() returns (groups: seq<Group>, ghost seeds: seq<string>)
      requires state.Valid()
      ensures Grouping(groups, seeds, Places(), state.graph, state.locations.Keys)
      ensures Covered(groups, Places())
    {
      ghost var where, g, names := Places(), state.graph, state.locations.Keys;
      groups, seeds := [], [];
      var visited: set<string> := {};
      var rest := state.players.Keys;
      GroupedStart(where, g, names);
      while rest != {}
        invariant state.Valid() && where == Places() && g == state.graph && names == state.locations.Keys
        invariant rest <= where.Keys
        invariant Grouped(groups, seeds, visited, rest, where, g, names)
        decreases rest
      {
        var u :| u in rest;
        groups, seeds, visited := GroupStep(groups, seeds, visited, rest, u, where, g, names);
        rest := rest - {u};
      }
      GroupedDone(groups, seeds, visited, where, g, names);
    }

    /** The actors and turn counters the dispatcher sees at the locations named `key`. */
    ghost function SurveyOf(key: set<string>): Survey
      reads state`locations, state.locations.Values`pendingActions, state.locations.Values`turnCounter
    {
      Survey(set n, u | n in key && n in state.locations && u in state.locations[n].pendingActions :: u,
             set n | n in key && n in state.locations :: state.locations[n].turnCounter)
    }

    /** `SurveyOf` for each group of a pass, in order. */
    ghost function Surveys(groups: seq<Group>): (r: seq<Survey>)
      reads state`locations, state.locations.Values`pendingActions, state.locations.Values`turnCounter
      ensures |r| == |groups|
    {
      if groups == [] then [] else Surveys(groups[..|groups| - 1]) + [SurveyOf(groups[|groups| - 1].key)]
    }

    lemma {:induction false} SurveysAt(groups: seq<Group>)
      ensures forall k :: 0 <= k < |groups| ==> Surveys(groups)[k] == SurveyOf(groups[k].key)
    {
      if groups != [] {
        var m := |groups| - 1;
        SurveysAt(groups[..m]);
        assert forall k :: 0 <= k < m ==> groups[..m][k] == groups[k];
      }
    }

    /** `[get_or_create_location(name) for name in group_key]` over existing names: each location of the key once. */
    method LocationsOf(key: set<string>) returns (locs: seq<Location>)
      requires state.Named() && forall x :: x in key ==> x in state.locations
      ensures DistinctLocations(locs) && Current(locs) && |locs| == |key|
      ensures forall l :: l in locs ==> l.name in key
      ensures forall n :: n in key ==> state.locations[n] in locs
    {
      var names := Enumerate(key);
      locs := [];
      var i := 0;
      while i < |names|
        invariant 0 <= i <= |names| && |locs| == i
        invariant forall k :: 0 <= k < i ==> locs[k] == state.locations[names[k]]
      {
        locs := locs + [state.locations[names[i]]];
        i := i + 1;
      }
      forall a, b | 0 <= a < b < |locs| ensures locs[a] != locs[b] {
        assert locs[a].name == names[a] && locs[b].name == names[b];
      }
      forall n | n in key ensures state.locations[n] in locs {
        var k :| 0 <= k < |names| && names[k] == n;
        assert locs[k] == state.locations[n];
      }
    }

    /**
     * The merge test and the `actions_in_group.update(...)` loop over the
     * group's locations: a merge turn when the counters differ, and the
     * union of the pending actions.
     */
    method SurveyGroup(locs: seq<Location>, ghost key: set<string>) returns (merge: bool, actions: map<string, string>)
      requires Current(locs) && state.Named()
      requires forall l :: l in locs ==> l.name in key
      requires forall n :: n in key ==> n in state.locations && state.locations[n] in locs
      ensures merge <==> |SurveyOf(key).counters| > 1
      ensures actions.Keys == SurveyOf(key).actors
    {
      assert Counters(locs) == SurveyOf(key).counters by {
        forall c | c in SurveyOf(key).counters ensures c in Counters(locs) {
          var n :| n in key && n in state.locations && state.locations[n].turnCounter == c;
          assert state.locations[n] in locs;
        }
      }
      merge := |Counters(locs)| > 1;
      actions := map[];
      var i := 0;
      while i < |locs|
        invariant 0 <= i <= |locs|
        invariant actions.Keys == set l, u | l in locs[..i] && u in l.pendingActions :: u
      {
        assert locs[..i + 1] == locs[..i] + [locs[i]];
        actions := actions + locs[i].pendingActions;
        i := i + 1;
      }
      assert locs[..i] == locs;
      forall u | u in SurveyOf(key).actors ensures u in actions {
        var n :| n in key && n in state.locations && u in state.locations[n].pendingActions;
        assert state.locations[n] in locs;
      }
    }

    /** The locations of `key` and what they show the dispatcher. */
    method Inspect(key: set<string>) returns (merge: bool, actions: map<string, string>)
      requires state.Named() && forall x :: x in key ==> x in state.locations
      ensures merge <==> |SurveyOf(key).counters| > 1
      ensures actions.Keys == SurveyOf(key).actors && |actions| == |SurveyOf(key).actors|
    {
      var locs := LocationsOf(key);
      merge, actions := SurveyGroup(locs, key);
      assert |actions| == |actions.Keys|;
    }

    /**
     * One group of the dispatch loop: a locked or empty group is passed
     * over; a ready group's key is locked and its turn handed over; any
     * other group is sent the waiting notice, the actors excepted.
     */
    method DispatchOne(g: Group)
      requires state.Named() && forall x :: x in g.key ==> x in state.locations
      modifies this`turnProcessingLocks, this`log
      ensures log == old(log) + Verdict(g, old(turnProcessingLocks), old(SurveyOf(g.key)))
      ensures turnProcessingLocks == old(turnProcessingLocks) + DispatchedKeys(Verdict(g, old(turnProcessingLocks), old(SurveyOf(g.key))))
    {
      ghost var sv, locks0 := SurveyOf(g.key), turnProcessingLocks;
      if g.key in turnProcessingLocks || g.members == [] {
        assert DispatchedKeys([]) == {};
        return;
      }
      var merge, actions := Inspect(g.key);
      if |actions| >= |g.members| {
        assert Verdict(g, locks0, sv) == [Dispatched(g.key, merge)];
        assert DispatchedKeys([Dispatched(g.key, merge)]) == {g.key};
        turnProcessingLocks := turnProcessingLocks + {g.key};
        log := log + [Dispatched(g.key, merge)];
      } else {
        assert Verdict(g, locks0, sv) == [Waiting(g.key, actions.Keys)];
        assert DispatchedKeys([Waiting(g.key, actions.Keys)]) == {};
        log := log + [Waiting(g.key, actions.Keys)];
      }
    }

    /** The dispatch loop of `_check_and_process_all_groups`, groups in order. */
    method DispatchReady(groups: seq<Group>)
      requires state.Named() && forall k, x :: 0 <= k < |groups| && x in groups[k].key ==> x in state.locations
      modifies this`turnProcessingLocks, this`log
      ensures log == old(log) + Verdicts(groups, old(Surveys(groups)), old(turnProcessingLocks))
      ensures turnProcessingLocks == old(turnProcessingLocks) + DispatchedKeys(Verdicts(groups, old(Surveys(groups)), old(turnProcessingLocks)))
    {
      ghost var svs := Surveys(groups);
      ghost var locks0 := turnProcessingLocks;
      SurveysAt(groups);
      var i := 0;
      while i < |groups|
        invariant 0 <= i <= |groups|
        invariant forall k :: 0 <= k < |groups| ==> svs[k] == SurveyOf(groups[k].key)
        invariant log == old(log) + Verdicts(groups[..i], svs[..i], locks0)
        invariant turnProcessingLocks == locks0 + DispatchedKeys(Verdicts(groups[..i], svs[..i], locks0))
      {
        DispatchStep(groups, svs, locks0, old(log), i);
        i := i + 1;
      }
      assert groups[..i] == groups && svs[..i] == svs;
    }

    /** Group `i` of the dispatch loop: the decisions and locks of the first `i` groups become those of the first `i + 1`. */
    method DispatchStep(groups: seq<Group>, ghost svs: seq<Survey>, ghost locks0: set<set<string>>, ghost log0: seq<Decision>, i: nat)
      requires state.Named() && i < |groups| == |svs| && svs[i] == SurveyOf(groups[i].key)
      requires forall x :: x in groups[i].key ==> x in state.locations
      requires log == log0 + Verdicts(groups[..i], svs[..i], locks0)
      requires turnProcessingLocks == locks0 + DispatchedKeys(Verdicts(groups[..i], svs[..i], locks0))
      modifies this`turnProcessingLocks, this`log
      ensures log == log0 + Verdicts(groups[..i + 1], svs[..i + 1], locks0)
      ensures turnProcessingLocks == locks0 + DispatchedKeys(Verdicts(groups[..i + 1], svs[..i + 1], locks0))
    {
      ghost var prev := Verdicts(groups[..i], svs[..i], locks0);
      DispatchOne(groups[i]);
      assert groups[..i + 1][..i] == groups[..i] && svs[..i + 1][..i] == svs[..i];
      ghost var last := Verdict(groups[i], locks0 + DispatchedKeys(prev), svs[i]);
      assert Verdicts(groups[..i + 1], svs[..i + 1], locks0) == prev + last;
      DispatchedKeysAppend(prev, last);
    }

    /**
     * `_check_and_process_all_groups`: with nobody registered nothing
     * happens; otherwise the partition is taken and every group judged in
     * turn against the locks.
     */
    method CheckAndProcessAllGroups() returns (ghost groups: seq<Group>, ghost seeds: seq<string>)
      requires state.Valid()
      modifies this`turnProcessingLocks, this`log
      ensures state.Valid()
      ensures Checked(groups, seeds, old(log), old(turnProcessingLocks))
    {
      if state.players == map[] {
        NobodyChecked();
        return [], [];
      }
      label before:
      groups, seeds := GroupAndDispatch();
      assert old@before(View(groups)) == View(groups);
    }

    /** With nobody registered, the empty pass is the whole check. */
    lemma NobodyChecked()
      requires state.players == map[]
      ensures Checked([], [], log, turnProcessingLocks)
    {
      assert DispatchedKeys([]) == {};
    }

    /** The partition of the registered players followed by the dispatch loop over its groups. */
    method GroupAndDispatch() returns (ghost groups: seq<Group>, ghost seeds: seq<string>)
      requires state.Valid()
      modifies this`turnProcessingLocks, this`log
      ensures CheckedWith(groups, seeds, old(View(groups)), log, turnProcessingLocks, old(log), old(turnProcessingLocks))
    {
      var gs;
      gs, seeds := Partition();
      ghost var v := View(gs);
      assert v == old(View(gs));
      forall k, x | 0 <= k < |gs| && x in gs[k].key ensures x in state.locations {
        assert GroupOk(gs[k], seeds[k], v.where, v.graph, v.names);
      }
      DispatchReady(gs);
      groups := gs;
    }

    /** What a pass of the group check reads of the world: where the players are, the graph, the names and the groups' surveys. */
    ghost function View(groups: seq<Group>): (v: Snapshot)
      reads state`players, state.players.Values`locationName, state`graph, state`locations,
            state.locations.Values`pendingActions, state.locations.Values`turnCounter
      ensures |v.surveys| == |groups|
    {
      Snapshot(Places(), state.graph, state.locations.Keys, Surveys(groups))
    }

    /**
     * A pass of `_check_and_process_all_groups` over the world as it is now,
     * begun with the log `log0` and the locks `locks0`: `groups` is the
     * partition of the playing players and the log and locks grew by the
     * pass's decisions.
     */
    ghost predicate Checked(groups: seq<Group>, seeds: seq<string>, log0: seq<Decision>, locks0: set<set<string>>)
      reads this, state, state.players.Values, state.locations.Values
    {
      CheckedWith(groups, seeds, View(groups), log, turnProcessingLocks, log0, locks0)
    }

    /**
     * `handle_player_action`: the action is recorded as `RecordAction`
     * says, and only a recorded action triggers the group check, which then
     * sees the world with the action in it.
     */
    method HandlePlayerAction(u: string, action: string)
      returns (outcome: ActionOutcome, ghost groups: seq<Group>, ghost seeds: seq<string>)
      requires state.Valid()
      modifies state.PlayerLoc(u)`pendingActions, state.PlayerLoc(u)`conversationHistory, this`turnProcessingLocks, this`log
      ensures state.Valid()
      ensures outcome == Ignored <==> !(u in state.players && Truthy(state.players[u].locationName))
      ensures outcome != Ignored ==>
                var n := state.players[u].locationName.value;
                && n in state.locations
                && (outcome == AlreadyActed <==> u in old(state.locations[n].pendingActions))
      ensures outcome != Recorded ==>
                unchanged(state.PlayerLoc(u)) && log == old(log) && turnProcessingLocks == old(turnProcessingLocks)
      ensures outcome == Recorded ==>
                var l := state.locations[state.players[u].locationName.value];
                && l.pendingActions == old(l.pendingActions)[u := action]
                && l.conversationHistory == old(l.conversationHistory) + [ActionEntry(u, action)]
      ensures outcome == Recorded ==> Checked(groups, seeds, old(log), old(turnProcessingLocks))
    {
      outcome := RecordAction(u, action);
      if outcome == Recorded {
        groups, seeds := CheckAndProcessAllGroups();
      } else {
        groups, seeds := [], [];
      }
    }

    /** `on_player_removed`: the group check runs when the departed player stood somewhere. */
    method OnPlayerRemoved(last: Option<string>) returns (ghost groups: seq<Group>, ghost seeds: seq<string>)
      requires state.Valid()
      modifies this`turnProcessingLocks, this`log
      ensures Truthy(last) ==> Checked(groups, seeds, old(log), old(turnProcessingLocks))
      ensures !Truthy(last) ==> log == old(log) && turnProcessingLocks == old(turnProcessingLocks)
    {
      groups, seeds := [], [];
      if Truthy(last) {
        groups, seeds := CheckAndProcessAllGroups();
      }
    }

    /** The loop of `_narrate_initial_room_for_all`: each player found without a pending action at `loc` looks around. */
    method PendLookAround(loc: Location, found: seq<Player>)
      modifies loc`pendingActions
      ensures loc.pendingActions == Pended(old(loc.pendingActions), Usernames(found))
    {
      var i := 0;
      while i < |found|
        invariant 0 <= i <= |found|
        invariant loc.pendingActions == Pended(old(loc.pendingActions), Usernames(found[..i]))
      {
        var w := found[i].username;
        assert Usernames(found[..i + 1]) == Usernames(found[..i]) + {w} by {
          assert found[..i + 1] == found[..i] + [found[i]];
        }
        PendedAdd(old(loc.pendingActions), Usernames(found[..i]), w);
        if w !in loc.pendingActions {
          loc.pendingActions := loc.pendingActions[w := LookAround];
        }
        i := i + 1;
      }
      assert found[..i] == found;
    }

    /** `get_players_in_locations({n})`: exactly the players registered at `n`. */
    method PlayersFoundAt(n: string) returns (found: seq<Player>)
      requires state.Valid()
      ensures Usernames(found) == state.RegisteredAt(n)
      ensures found == [] <==> state.RegisteredAt(n) == {}
    {
      found := state.GetPlayersInLocations([n]);
      forall w | w in state.RegisteredAt(n) ensures w in Usernames(found) {
        assert state.players[w].username == w;
      }
      if found != [] {
        assert found[0].username in Usernames(found);
      }
    }

    /** The players standing at the existing location `loc` who have no action yet look around. */
    method LookAroundAt(loc: Location) returns (someone: bool)
      requires state.Valid() && loc.name in state.locations && state.locations[loc.name] == loc
      modifies loc`pendingActions
      ensures state.Valid()
      ensures loc.pendingActions == Pended(old(loc.pendingActions), old(state.RegisteredAt(loc.name)))
      ensures someone <==> old(state.RegisteredAt(loc.name)) != {}
    {
      var found := PlayersFoundAt(loc.name);
      someone := found != [];
      if someone {
        PendLookAround(loc, found);
        assert state.PendingPresent() by {
          forall n | n in state.locations
            ensures state.locations[n].pendingActions.Keys <= state.locations[n].playersPresent
          {
          }
        }
      } else {
        assert Pended(loc.pendingActions, {}) == loc.pendingActions;
      }
    }

    /** The first half of `_narrate_initial_room_for_all`: the start room exists and everyone standing there has an action. */
    method PrepareStartRoom() returns (someone: bool)
      requires state.Valid()
      modifies state`locations, state`graph, state.LocAt(StartRoom)`pendingActions
      ensures state.Valid()
      ensures StartRoom in state.locations && state.graph == EnsureNode(old(state.graph), StartRoom)
      ensures state.locations[StartRoom].pendingActions ==
                Pended(old(state.PendingAt(StartRoom)), old(state.RegisteredAt(StartRoom)))
      ensures someone <==> old(state.RegisteredAt(StartRoom)) != {}
    {
      ghost var arrived, pending0 := state.RegisteredAt(StartRoom), state.PendingAt(StartRoom);
      var loc := state.GetOrCreateLocation(StartRoom);
      assert state.RegisteredAt(StartRoom) == arrived && loc.pendingActions == pending0;
      someone := LookAroundAt(loc);
    }

    /**
     * `_narrate_initial_room_for_all`: the start room is looked up or
     * created; when players stand in it, each of them without an action
     * looks around and the group check runs.
     */
    method NarrateInitialRoomForAll() returns (ghost groups: seq<Group>, ghost seeds: seq<string>)
      requires state.Valid()
      modifies state`locations, state`graph, state.LocAt(StartRoom)`pendingActions, this`turnProcessingLocks, this`log
      ensures state.Valid()
      ensures StartRoom in state.locations && state.graph == EnsureNode(old(state.graph), StartRoom)
      ensures state.locations[StartRoom].pendingActions ==
                Pended(old(state.PendingAt(StartRoom)), old(state.RegisteredAt(StartRoom)))
      ensures old(state.RegisteredAt(StartRoom)) != {} ==> Checked(groups, seeds, old(log), old(turnProcessingLocks))
      ensures old(state.RegisteredAt(StartRoom)) == {} ==>
                log == old(log) && turnProcessingLocks == old(turnProcessingLocks)
    {
      var someone := PrepareStartRoom();
      groups, seeds := [], [];
      if someone {
        groups, seeds := CheckAndProcessAllGroups();
      }
    }

    /** `loc.add_narration_to_history(full_narration_text)` at every location of the group. */
    method NarrateGroup(group: seq<Location>, narration: string)
      requires DistinctLocations(group)
      modifies (set l | l in group)`conversationHistory
      ensures forall l :: l in group ==> l.conversationHistory == old(l.conversationHistory) + Narrated(narration)
    {
      var i := 0;
      while i < |group|
        invariant 0 <= i <= |group|
        invariant forall k :: 0 <= k < i ==> group[k].conversationHistory == old(group[k].conversationHistory) + Narrated(narration)
        invariant forall k :: i <= k < |group| ==> group[k].conversationHistory == old(group[k].conversationHistory)
      {
        group[i].AddNarrationToHistory(narration);
        i := i + 1;
      }
    }

    /**
     * The narrator's delta at the end of a turn: it is applied, and a move or
     * a new connection triggers the group check while the group's own key is
     * still locked, so the check never hands out a key that was locked.
     * The check runs before `FinishTurn` clears this turn's pending actions,
     * so a reshaped group can be dispatched on actions already narrated.
     */
    method ApplyDelta(c: StateChanges) returns (ghost nested: seq<Decision>, ghost groups: seq<Group>, ghost seeds: seq<string>)
      requires state.Valid()
      modifies state`locations, state`graph, state`worldFlags, state.locations.Values`description,
               state.players.Values`inventory, state.players.Values`status, state.players.Values`locationName,
               state.locations.Values`playersPresent, state.locations.Values`pendingActions,
               state.locations.Values`conversationHistory, this`turnProcessingLocks, this`log
      ensures state.Valid() && state.players == old(state.players)
      ensures forall n {:trigger old(state.locations[n])} :: n in old(state.locations) ==>
                n in state.locations && state.locations[n] == old(state.locations[n])
      ensures Reshapes(old(state.PlayerViews()), c) ==>
                Checked(groups, seeds, old(log), old(turnProcessingLocks)) &&
                nested == Verdicts(groups, Surveys(groups), old(turnProcessingLocks))
      ensures !Reshapes(old(state.PlayerViews()), c) ==> nested == []
      ensures log == old(log) + nested && turnProcessingLocks == old(turnProcessingLocks) + DispatchedKeys(nested)
      ensures forall d :: d in nested && d.Dispatched? ==> d.key !in old(turnProcessingLocks)
    {
      var go := ApplyChanges(c);
      ghost var places := state.locations;
      nested, groups, seeds := RecheckIf(go);
      assert state.locations == places;
    }

    /** `apply_turn_changes`, reporting whether it moved a player or created a connection. */
    method ApplyChanges(c: StateChanges) returns (go: bool)
      requires state.Valid()
      modifies state`locations, state`graph, state`worldFlags, state.locations.Values`description,
               state.players.Values`inventory, state.players.Values`status, state.players.Values`locationName,
               state.locations.Values`playersPresent, state.locations.Values`pendingActions,
               state.locations.Values`conversationHistory
      ensures state.Valid() && state.players == old(state.players)
      ensures forall n {:trigger old(state.locations[n])} :: n in old(state.locations) ==>
                n in state.locations && state.locations[n] == old(state.locations[n])
      ensures go <==> Reshapes(old(state.PlayerViews()), c)
    {
      var moved, created := state.ApplyTurnChanges(c);
      assert |moved| == |MoveNames(moved)|;
      go := moved != [] || created;
    }

    /** The group check when `go` holds; nothing otherwise. */
    method RecheckIf(go: bool) returns (ghost nested: seq<Decision>, ghost groups: seq<Group>, ghost seeds: seq<string>)
      requires state.Valid()
      modifies this`turnProcessingLocks, this`log
      ensures state.Valid()
      ensures go ==> Checked(groups, seeds, old(log), old(turnProcessingLocks)) &&
                     nested == Verdicts(groups, Surveys(groups), old(turnProcessingLocks))
      ensures !go ==> nested == []
      ensures log == old(log) + nested && turnProcessingLocks == old(turnProcessingLocks) + DispatchedKeys(nested)
      ensures forall d :: d in nested && d.Dispatched? ==> d.key !in old(turnProcessingLocks)
    {
      nested, groups, seeds := [], [], [];
      if go {
        groups, seeds := CheckAndProcessAllGroups();
        nested := Verdicts(groups, Surveys(groups), old(turnProcessingLocks));
        NoDoubleDispatch(groups, Surveys(groups), old(turnProcessingLocks));
      } else {
        assert DispatchedKeys([]) == {};
      }
    }

    /**
     * The `try` block of `_process_turn` with the narrator's reply given:
     * nothing happens in a group with nobody in it; otherwise the turn opens
     * as `OpenTurn` says, a narration that is not blank goes to every
     * location's history, and then the delta, when there is one, is applied.
     */
    method RunTurn(group: seq<Location>, merge: bool, narration: string, changes: Option<StateChanges>)
      returns (ghost nested: seq<Decision>)
      requires |group| > 0 && DistinctLocations(group) && state.Valid() && Current(group)
      modifies state`locations, state`graph, state`worldFlags, state.locations.Values`description,
               state.players.Values`inventory, state.players.Values`status, state.players.Values`locationName,
               state.players.Values`statusEffects, state.locations.Values`playersPresent,
               state.locations.Values`pendingActions, state.locations.Values`conversationHistory,
               state.locations.Values`turnCounter, this`turnProcessingLocks, this`log
      ensures state.Valid() && Current(group)
      ensures log == old(log) + nested && turnProcessingLocks == old(turnProcessingLocks) + DispatchedKeys(nested)
      ensures forall d :: d in nested && d.Dispatched? ==> d.key !in old(turnProcessingLocks)
      ensures Narrated(narration) == [] || changes.None? ==> nested == []
      ensures old(Busy(group)) ==> forall l :: l in group ==> l.turnCounter == old(l.turnCounter) + if merge then 0 else 1
      ensures !old(Busy(group)) ==> nested == [] && forall l :: l in group ==> l.turnCounter == old(l.turnCounter)
    {
      nested := [];
      assert DispatchedKeys([]) == {};
      var ps := GroupPlayers(group);
      if ps == [] {
        return;
      }
      OpenTurnCounted(group, ps, merge);
      nested := NarrateAndApply(group, narration, changes);
    }

    /** `FindPlayers` as `RunTurn` needs it: registered players, none twice, and some exactly when the group is busy. */
    method GroupPlayers(group: seq<Location>) returns (ps: seq<Player>)
      requires state.Valid()
      ensures forall p :: p in ps ==> p.username in state.players && state.players[p.username] == p
      ensures forall i, j :: 0 <= i < j < |ps| ==> ps[i] != ps[j]
      ensures Busy(group) <==> ps != []
    {
      ps := FindPlayers(group);
      if Busy(group) {
        var n :| n in KeyOf(group) && state.RegisteredAt(n) != {};
        var u :| u in state.RegisteredAt(n);
        assert state.players[u] in ps;
      }
      if ps != [] {
        assert ps[0] in ps;
      }
    }

    /** `OpenTurn` as `RunTurn` needs it: the world stays valid and the counters move on unless this is a merge turn. */
    method OpenTurnCounted(group: seq<Location>, ps: seq<Player>, merge: bool)
      requires |group| > 0 && DistinctLocations(group) && state.Valid() && Current(group)
      requires forall i, j :: 0 <= i < j < |ps| ==> ps[i] != ps[j]
      modifies (set p | p in ps)`statusEffects, (set l | l in group)`conversationHistory,
               (set l | l in group)`turnCounter, (set l | l in group)`pendingActions
      ensures state.Valid()
      ensures forall l :: l in group ==> l.turnCounter == old(l.turnCounter) + if merge then 0 else 1
    {
      var orders := OpenTurn(group, ps, merge);
    }

    /** The end of the `try` block: the narration is recorded and the delta applied. */
    method NarrateAndApply(group: seq<Location>, narration: string, changes: Option<StateChanges>)
      returns (ghost nested: seq<Decision>)
      requires DistinctLocations(group) && state.Valid() && Current(group)
      modifies state`locations, state`graph, state`worldFlags, state.locations.Values`description,
               state.players.Values`inventory, state.players.Values`status, state.players.Values`locationName,
               state.locations.Values`playersPresent, state.locations.Values`pendingActions,
               state.locations.Values`conversationHistory, this`turnProcessingLocks, this`log
      ensures state.Valid() && Current(group)
      ensures log == old(log) + nested && turnProcessingLocks == old(turnProcessingLocks) + DispatchedKeys(nested)
      ensures forall d :: d in nested && d.Dispatched? ==> d.key !in old(turnProcessingLocks)
      ensures Narrated(narration) == [] || changes.None? ==> nested == []
      ensures forall l :: l in group ==> unchanged(l`turnCounter)
    {
      nested := [];
      assert DispatchedKeys([]) == {};
      if Strip(narration) != [] {
        NarrateGroup(group, narration);
        if changes.Some? {
          ghost var groups, seeds;
          nested, groups, seeds := ApplyDelta(changes.value);
        }
      }
    }

    /** Some registered player stands at one of the group's locations. */
    ghost predicate Busy(group: seq<Location>)
      reads state`players, state`locations, state.locations.Values`playersPresent
    {
      exists n :: n in KeyOf(group) && state.RegisteredAt(n) != {}
    }

    /**
     * `_process_turn` with the narrator's reply given: the turn runs as
     * `RunTurn` says and the `finally` block always follows, so the group
     * ends with no pending action, synchronised counters after a merge turn,
     * and its key released; a re-check inside the turn never hands out the
     * turn's own key while it is locked.
     */
    method ProcessTurn(group: seq<Location>, merge: bool, narration: string, changes: Option<StateChanges>)
      returns (ghost nested: seq<Decision>)
      requires |group| > 0 && DistinctLocations(group) && state.Valid() && Current(group)
      modifies state`locations, state`graph, state`worldFlags, state.locations.Values`description,
               state.players.Values`inventory, state.players.Values`status, state.players.Values`locationName,
               state.players.Values`statusEffects, state.locations.Values`playersPresent,
               state.locations.Values`pendingActions, state.locations.Values`conversationHistory,
               state.locations.Values`turnCounter, this`turnProcessingLocks, this`log
      ensures state.Valid()
      ensures log == old(log) + nested + [Finished(KeyOf(group))]
      ensures turnProcessingLocks == (old(turnProcessingLocks) + DispatchedKeys(nested)) - {KeyOf(group)}
      ensures KeyOf(group) in old(turnProcessingLocks) ==> forall d :: d in nested && d.Dispatched? ==> d.key != KeyOf(group)
      ensures Narrated(narration) == [] || changes.None? || !old(Busy(group)) ==> nested == []
      ensures forall l :: l in group ==> l.pendingActions == map[]
      ensures merge ==> |Counters(group)| == 1 && forall l :: l in group ==> l.turnCounter == old(MaxCounter(group)) + 1
      ensures !merge ==> forall l :: l in group ==> l.turnCounter == old(l.turnCounter) + if old(Busy(group)) then 1 else 0
    {
      nested := RunTurn(group, merge, narration, changes);
      FinishTurn(group, merge);
    }

    /**
     * `start_game`: when the world leaves the lobby, the opening narration
     * runs, so afterwards every registered player stands in the start room
     * with an action pending, and the group check has run if anyone is
     * registered.
     */
    method StartGame() returns (ok: bool, ghost groups: seq<Group>, ghost seeds: seq<string>)
      requires state.Valid() && (state.phase == Lobby ==> state.OnlyAtStart())
      modifies state`phase, state`locations, state`graph, state.players.Values`locationName,
               state.LocAt(StartRoom)`playersPresent, state.LocAt(StartRoom)`conversationHistory,
               state.LocAt(StartRoom)`pendingActions, this`turnProcessingLocks, this`log
      ensures ok <==> old(state.phase) == Lobby
      ensures !ok ==> log == old(log) && turnProcessingLocks == old(turnProcessingLocks) && state.phase == old(state.phase)
      ensures !ok ==> state.Valid() && state.locations == old(state.locations) && state.graph == old(state.graph)
      ensures ok ==> state.Valid() && state.phase == Active && StartRoom in state.locations
      ensures ok ==> forall u {:trigger state.players[u]} :: u in state.players ==> state.players[u].locationName == Some(StartRoom)
      ensures ok ==> state.locations[StartRoom].pendingActions.Keys == state.players.Keys
      ensures ok && state.players != map[] ==> Checked(groups, seeds, old(log), old(turnProcessingLocks))
    {
      groups, seeds := [], [];
      ghost var order;
      ok, order := state.StartGame();
      if ok {
        groups, seeds := OpenGame();
      }
    }

    /** The opening narration right after the world became active, with everyone in the start room. */
    method OpenGame() returns (ghost groups: seq<Group>, ghost seeds: seq<string>)
      requires state.Valid() && StartRoom in state.locations
      requires forall u {:trigger state.players[u]} :: u in state.players ==> state.players[u].locationName == Some(StartRoom)
      modifies state`locations, state`graph, state.LocAt(StartRoom)`pendingActions, this`turnProcessingLocks, this`log
      ensures state.Valid() && StartRoom in state.locations
      ensures state.locations[StartRoom].pendingActions.Keys == state.players.Keys
      ensures state.players != map[] ==> Checked(groups, seeds, old(log), old(turnProcessingLocks))
    {
      state.AllAtStart();
      ghost var pending0 := state.PendingAt(StartRoom);
      groups, seeds := NarrateInitialRoomForAll();
      assert state.locations[StartRoom].pendingActions == Pended(pending0, state.players.Keys);
    }
  }
}
