/**
 * The structured state delta the narrator's extraction step returns
 * (`state_changes` in `GameState.apply_turn_changes`), with each optional
 * JSON field made explicit, and the effect of its connection updates on the
 * location graph.
 */
module Changes {
  import opened Common
  import opened Graph

  /** One entry of `location_updates`. */
  datatype LocationUpdate = LocationUpdate(locationName: Option<string>, description: Option<string>)

  /** The JSON value found under `locations` in a connection update. */
  datatype LocationsValue =
    | Missing                     // the key is absent or null
    | NameList(names: seq<string>) // a JSON array of names
    | SizedOther                  // a string or an object: it has a length but is not a list
    | UnsizedOther                // a number or a boolean: it has no length

  /** One entry of `connection_updates`. */
  datatype ConnectionUpdate = ConnectionUpdate(action: Option<string>, locations: LocationsValue)

  /**
   * One entry of `player_updates`. An absent `inventory_add` or
   * `inventory_remove` acts like an empty list; `statusUpdate` is None when
   * `status_update` is absent or not a list.
   */
  datatype PlayerUpdate = PlayerUpdate(
    username: Option<string>,
    inventoryAdd: seq<string>,
    inventoryRemove: seq<string>,
    statusUpdate: Option<seq<string>>,
    moveToLocation: Option<string>)

  /** The whole delta; an absent list is empty and an absent flag update is the empty map. */
  datatype StateChanges = StateChanges(
    locationUpdates: seq<LocationUpdate>,
    connectionUpdates: seq<ConnectionUpdate>,
    worldFlagsUpdate: map<string, string>,
    playerUpdates: seq<PlayerUpdate>)

  /** How a connection update is screened before it touches the graph. */
  datatype Screening = Raises | Skipped | Accepted(first: string, second: string)

  /**
   * The screen as written at state.py:158: the list
   * `[action, isinstance(locs, list), len(locs) == 2]` is built in full before
   * `all` inspects it, so `len` runs even when `locations` is missing or is a
   * number, and raises.
   */
  function ScreenConnectionAsWritten(u: ConnectionUpdate): (r: Screening)
    ensures r == Raises <==> u.locations.Missing? || u.locations.UnsizedOther?
  {
    match u.locations
    case Missing => Raises
    case UnsizedOther => Raises
    case SizedOther => Skipped
    case NameList(names) => if Truthy(u.action) && |names| == 2 then Accepted(names[0], names[1]) else Skipped
  }

  /** A CREATE without `locations` raises as written, which stops `apply_turn_changes` part-way; the corrected screen skips it. */
  lemma MissingLocationsRaise()
    ensures ScreenConnectionAsWritten(ConnectionUpdate(Some("CREATE"), Missing)) == Raises
    ensures ScreenConnection(ConnectionUpdate(Some("CREATE"), Missing)) == Skipped
  {
  }

  /** The screen the code evidently means: an incomplete update is skipped. */
  function ScreenConnection(u: ConnectionUpdate): (r: Screening)
    ensures r != Raises
    ensures r.Accepted? <==> Truthy(u.action) && u.locations.NameList? && |u.locations.names| == 2
    ensures r.Accepted? ==> r.first == u.locations.names[0] && r.second == u.locations.names[1]
  {
    if Truthy(u.action) && u.locations.NameList? && |u.locations.names| == 2 then
      Accepted(u.locations.names[0], u.locations.names[1])
    else
      Skipped
  }

  /** The two screens agree on every update the written one does not raise on. */
  lemma ScreensAgree(u: ConnectionUpdate)
    ensures ScreenConnectionAsWritten(u) != Raises ==> ScreenConnectionAsWritten(u) == ScreenConnection(u)
  {
  }

  /** An accepted update whose action is CREATE: the one kind that reports a new connection. */
  predicate CreatesEdge(u: ConnectionUpdate)
  {
    ScreenConnection(u).Accepted? && u.action == Some("CREATE")
  }

  /**
   * One screened connection update: both named locations are created on
   * demand, then CREATE adds the edge both ways and DESTROY removes it;
   * another action only creates the locations.
   */
  function ApplyConnection(g: Adjacency, u: ConnectionUpdate): (r: Adjacency)
    ensures ScreenConnection(u).Skipped? ==> r == g
    ensures ScreenConnection(u).Accepted? ==>
              var a, b := ScreenConnection(u).first, ScreenConnection(u).second;
              && r.Keys == g.Keys + {a, b}
              && (u.action == Some("CREATE") ==> b in r[a] && a in r[b])
              && (u.action == Some("DESTROY") ==> b !in r[a] && a !in r[b])
              && (forall x, y :: x in r && x != a && x != b ==> (y in r[x] <==> x in g && y in g[x]))
  {
    match ScreenConnection(u)
    case Accepted(a, b) =>
      var g1 := EnsureNode(EnsureNode(g, a), b);
      if u.action == Some("CREATE") then AddEdge(g1, a, b)
      else if u.action == Some("DESTROY") then RemoveEdge(g1, a, b)
      else g1
    case _ => g
  }

  /** The connection updates applied in order. */
  function ApplyConnections(g: Adjacency, us: seq<ConnectionUpdate>): Adjacency
    decreases |us|
  {
    if us == [] then g else ApplyConnection(ApplyConnections(g, us[..|us| - 1]), us[|us| - 1])
  }

  /** Applying one more update of a list continues from the updates before it. */
  lemma ApplyConnectionsStep(g: Adjacency, us: seq<ConnectionUpdate>, i: nat, before: Adjacency, after: Adjacency)
    requires i < |us| && before == ApplyConnections(g, us[..i]) && after == ApplyConnection(before, us[i])
    ensures after == ApplyConnections(g, us[..i + 1])
  {
    assert us[..i + 1][..i] == us[..i];
  }

  /** Connection updates keep the graph symmetric. */
  lemma {:induction false} ApplyConnectionsSymmetric(g: Adjacency, us: seq<ConnectionUpdate>)
    requires Symmetric(g)
    ensures Symmetric(ApplyConnections(g, us))
    decreases |us|
  {
    if us != [] {
      var g0 := ApplyConnections(g, us[..|us| - 1]);
      ApplyConnectionsSymmetric(g, us[..|us| - 1]);
      ApplyConnectionSymmetric(g0, us[|us| - 1]);
    }
  }

  lemma ApplyConnectionSymmetric(g: Adjacency, u: ConnectionUpdate)
    requires Symmetric(g)
    ensures Symmetric(ApplyConnection(g, u))
  {
    match ScreenConnection(u)
    case Accepted(a, b) =>
      var g1 := EnsureNode(EnsureNode(g, a), b);
      EnsureNodeSymmetric(g, a);
      EnsureNodeSymmetric(EnsureNode(g, a), b);
      if u.action == Some("CREATE") {
        AddEdgeSymmetric(g1, a, b);
      } else if u.action == Some("DESTROY") {
        RemoveEdgeSymmetric(g1, a, b);
      }
    case _ =>
  }

  /** Repeating a connection update, CREATE or DESTROY alike, changes nothing more. */
  lemma ApplyConnectionIdempotent(g: Adjacency, u: ConnectionUpdate)
    ensures ApplyConnection(ApplyConnection(g, u), u) == ApplyConnection(g, u)
  {
    match ScreenConnection(u)
    case Accepted(a, b) =>
      var g1 := EnsureNode(EnsureNode(g, a), b);
      var r := ApplyConnection(g, u);
      assert EnsureNode(EnsureNode(r, a), b) == r;
      if u.action == Some("CREATE") {
        AddEdgeIdempotent(g1, a, b);
      } else if u.action == Some("DESTROY") {
        RemoveEdgeIdempotent(g1, a, b);
      }
    case _ =>
  }

  /** The names a delta's location updates create: those that are truthy. */
  function LocationUpdateNames(us: seq<LocationUpdate>): (r: set<string>)
    ensures forall n :: n in r <==> exists i :: 0 <= i < |us| && us[i].locationName == Some(n) && n != ""
  {
    set i | 0 <= i < |us| && us[i].locationName.Some? && us[i].locationName.value != "" :: us[i].locationName.value
  }

  /** The description the location updates leave on `n`, if any: that of the last update naming `n` with one. */
  function LastDescription(us: seq<LocationUpdate>, n: string): (r: Option<string>)
    ensures r.Some? <==> exists i :: 0 <= i < |us| && us[i].locationName == Some(n) && us[i].description.Some? && n != ""
    decreases |us|
  {
    if us == [] then None
    else
      var last := us[|us| - 1];
      if n != "" && last.locationName == Some(n) && last.description.Some? then last.description
      else
        var r := LastDescription(us[..|us| - 1], n);
        assert forall i :: 0 <= i < |us| - 1 ==> us[..|us| - 1][i] == us[i];
        r
  }
}
