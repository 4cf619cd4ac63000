/**
 * The per-player game record (`server/game/player.py`) and the pure edits the
 * turn machinery applies to it: inventory additions and removals from a
 * narrator delta, and the once-per-turn tick of timed status effects.
 */
module Players {
  import opened Common

  const Flashlight: string := "фонарик"
  const Healthy: string := "здоров"

  /** A status effect as the turn engine reads and writes it; `durationTurns == None` is an untimed effect. */
  datatype StatusEffect = StatusEffect(name: string, description: string, durationTurns: Option<int>, isPositive: bool)

  /** The effect a player regains when none is left. */
  const DefaultEffect: StatusEffect := StatusEffect(Healthy, "В полном порядке.", None, true)

  class Player {
    const username: string
    var locationName: Option<string>
    var inventory: seq<string>
    var status: seq<string>
    var statusEffects: seq<StatusEffect>
    var personalHistory: seq<string>

    /** `Player(username)` with the dataclass defaults. */
    constructor (username: string)
      ensures this.username == username
      ensures locationName == None && inventory == [Flashlight] && status == [Healthy]
      ensures statusEffects == [] && personalHistory == []
    {
      this.username := username;
      locationName := None;
      inventory := [Flashlight];
      status := [Healthy];
      statusEffects := [];
      personalHistory := [];
    }

    /** Back to the lobby defaults; the name stays, and so do the status effects, which `reset` does not touch. */
    method Reset()
      modifies this
      ensures locationName == None && inventory == [Flashlight] && status == [Healthy]
      ensures personalHistory == []
      ensures statusEffects == old(statusEffects)
    {
      locationName := None;
      inventory := [Flashlight];
      status := [Healthy];
      personalHistory := [];
    }
  }

  /**
   * `inventory.extend(item for item in add if item not in inventory)`: the
   * generator is consumed while the list grows, so each item is checked
   * against the inventory as extended so far.
   */
  function WithItems(inv: seq<string>, add: seq<string>): (r: seq<string>)
    ensures |inv| <= |r| && r[..|inv|] == inv
    ensures forall x :: x in r <==> x in inv || x in add
    ensures forall i :: |inv| <= i < |r| ==> r[i] !in inv
    ensures NoDuplicates(inv) ==> NoDuplicates(r)
    decreases |add|
  {
    if add == [] then inv
    else
      var pre := WithItems(inv, add[..|add| - 1]);
      var x := add[|add| - 1];
      assert forall y :: y in add <==> y in add[..|add| - 1] || y == x;
      if x in pre then pre else pre + [x]
  }

  /** `s` can be obtained from `t` by deleting elements. */
  predicate IsSubsequence(s: seq<string>, t: seq<string>)
    decreases |t|
  {
    s == [] ||
    (t != [] && ((s[0] == t[0] && IsSubsequence(s[1..], t[1..])) || IsSubsequence(s, t[1..])))
  }

  /** Deleting elements cannot create a duplicate. */
  lemma {:induction false} SubsequenceNoDuplicates(s: seq<string>, t: seq<string>)
    requires IsSubsequence(s, t) && NoDuplicates(t)
    ensures NoDuplicates(s)
    decreases |t|
  {
    if s != [] {
      assert t != [];
      if s[0] == t[0] && IsSubsequence(s[1..], t[1..]) {
        SubsequenceNoDuplicates(s[1..], t[1..]);
        SubsequenceElements(s[1..], t[1..]);
        forall j | 0 < j < |s| ensures s[0] != s[j] {
          assert s[j] == s[1..][j - 1];
          assert s[1..][j - 1] in s[1..];
          assert s[j] in t[1..];
          var k :| 0 <= k < |t[1..]| && t[1..][k] == s[j];
          assert t[k + 1] == s[j];
        }
        forall i, j | 0 < i < j < |s| ensures s[i] != s[j] {
          assert s[i] == s[1..][i - 1] && s[j] == s[1..][j - 1];
        }
      } else {
        SubsequenceNoDuplicates(s, t[1..]);
      }
    }
  }

  /** Every element of a subsequence is an element of the sequence. */
  lemma {:induction false} SubsequenceElements(s: seq<string>, t: seq<string>)
    requires IsSubsequence(s, t)
    ensures forall x :: x in s ==> x in t
    decreases |t|
  {
    if s != [] {
      if s[0] == t[0] && IsSubsequence(s[1..], t[1..]) {
        SubsequenceElements(s[1..], t[1..]);
        assert s == [s[0]] + s[1..];
        assert t == [t[0]] + t[1..];
      } else {
        SubsequenceElements(s, t[1..]);
        assert t == [t[0]] + t[1..];
      }
    }
  }

  /** `[item for item in inventory if item not in remove]`. */
  function WithoutItems(inv: seq<string>, remove: seq<string>): (r: seq<string>)
    ensures forall x :: x in r <==> x in inv && x !in remove
    ensures forall x :: x !in remove ==> multiset(r)[x] == multiset(inv)[x]
    ensures IsSubsequence(r, inv)
    decreases |inv|
  {
    if inv == [] then []
    else
      var rest := WithoutItems(inv[1..], remove);
      assert inv == [inv[0]] + inv[1..];
      if inv[0] in remove then rest
      else
        assert ([inv[0]] + rest)[1..] == rest;
        [inv[0]] + rest
  }

  /** The effect after one tick, or None when it expires. */
  function TickEffect(e: StatusEffect): Option<StatusEffect>
  {
    match e.durationTurns
    case None => Some(e)
    case Some(d) => if d - 1 <= 0 then None else Some(e.(durationTurns := Some(d - 1)))
  }

  /**
   * The survivors of one tick, in order, and the names of the effects that
   * expired.
   */
  function Tick(effects: seq<StatusEffect>): (r: (seq<StatusEffect>, seq<string>))
    ensures |r.0| + |r.1| == |effects|
    decreases |effects|
  {
    if effects == [] then ([], [])
    else
      var pre := Tick(effects[..|effects| - 1]);
      var e := effects[|effects| - 1];
      match TickEffect(e)
      case None => (pre.0, pre.1 + [e.name])
      case Some(e') => (pre.0 + [e'], pre.1)
  }

  /** An effect that survived a tick: untimed and present before, or timed, with a positive count one below its old one. */
  ghost predicate SurvivorOf(e: StatusEffect, effects: seq<StatusEffect>)
  {
    (e.durationTurns == None && e in effects) ||
    (e.durationTurns.Some? && e.durationTurns.value > 0 &&
     e.(durationTurns := Some(e.durationTurns.value + 1)) in effects)
  }

  /**
   * What a tick does: untimed effects are kept, every kept effect is a
   * survivor of the old list, and a timed effect with at most one turn left
   * expires and is reported by name.
   */
  lemma TickFacts(effects: seq<StatusEffect>)
    ensures forall e :: e in effects && e.durationTurns == None ==> e in Tick(effects).0
    ensures forall e :: e in Tick(effects).0 ==> SurvivorOf(e, effects)
    ensures forall e :: e in effects && e.durationTurns.Some? && e.durationTurns.value <= 1 ==> e.name in Tick(effects).1
    ensures forall e :: e in effects && e.durationTurns.Some? && e.durationTurns.value > 1 ==>
              e.(durationTurns := Some(e.durationTurns.value - 1)) in Tick(effects).0
  {
    TickOutcomes(effects);
    TickSurvivors(effects);
  }

  /** Each effect of the old list is kept, counted down, or reported as expired. */
  lemma {:induction false} TickOutcomes(effects: seq<StatusEffect>)
    ensures forall e :: e in effects && e.durationTurns == None ==> e in Tick(effects).0
    ensures forall e :: e in effects && e.durationTurns.Some? && e.durationTurns.value <= 1 ==> e.name in Tick(effects).1
    ensures forall e :: e in effects && e.durationTurns.Some? && e.durationTurns.value > 1 ==>
              e.(durationTurns := Some(e.durationTurns.value - 1)) in Tick(effects).0
    decreases |effects|
  {
    if effects != [] {
      var front := effects[..|effects| - 1];
      var e := effects[|effects| - 1];
      TickOutcomes(front);
      var pre := Tick(front);
      assert effects == front + [e];
      assert forall x :: x in effects <==> x in front || x == e;
      assert Tick(effects) == match TickEffect(e)
                              case None => (pre.0, pre.1 + [e.name])
                              case Some(e') => (pre.0 + [e'], pre.1);
    }
  }

  /** Everything a tick keeps survived it. */
  lemma {:induction false} TickSurvivors(effects: seq<StatusEffect>)
    ensures forall e :: e in Tick(effects).0 ==> SurvivorOf(e, effects)
    decreases |effects|
  {
    if effects != [] {
      var front := effects[..|effects| - 1];
      var e := effects[|effects| - 1];
      TickSurvivors(front);
      var pre := Tick(front);
      assert effects == front + [e];
      forall x | SurvivorOf(x, front) ensures SurvivorOf(x, effects) {
      }
      match TickEffect(e)
      case None =>
        assert Tick(effects).0 == pre.0;
      case Some(e') =>
        assert Tick(effects).0 == pre.0 + [e'];
        if e.durationTurns.Some? {
          assert e'.(durationTurns := Some(e'.durationTurns.value + 1)) == e;
        }
    }
  }

  /** The effect list after a tick: the survivors, or the single default effect when none survives. */
  function Ticked(effects: seq<StatusEffect>): (r: seq<StatusEffect>)
    ensures r != []
    ensures r == [DefaultEffect] || r == Tick(effects).0
    ensures Tick(effects).0 == [] ==> r == [DefaultEffect]
    ensures Tick(effects).0 != [] ==> r == Tick(effects).0
  {
    var kept := Tick(effects).0;
    if kept == [] then [DefaultEffect] else kept
  }
}
