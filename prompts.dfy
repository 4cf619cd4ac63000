/**
 * The deterministic parts of building the narrator's prompt
 * (`server/llm/prompts.py`): the connections listed for a group, the history
 * section and its trimming, the actions line, the choice of principles and of
 * scene focus, the merge-conflict check, and the story-element bookkeeping of
 * the focus selection, whose random draws are passed in as oracles.
 */
module Prompts {
  import opened Common
  import opened Graph
  import opened Locations
  import opened World

  // ---------------------------------------------------------------------------
  // Connections inside a group (`_get_connections_in_group`)
  // ---------------------------------------------------------------------------

  /** The names of a listed pair, `frozenset(pair)`. */
  function Elems(p: seq<string>): set<string>
  {
    set x | x in p
  }

  /** `sorted(...)` of distinct names: strictly ascending. */
  predicate Ascending(p: seq<string>)
  {
    forall i :: 0 < i < |p| ==> StrLess(p[i - 1], p[i])
  }

  /** The names of a group's locations. */
  function NamesOf(group: seq<Location>): set<string>
  {
    set l | l in group :: l.name
  }

  /** The pairs collected while visiting the names in `from`: one per edge from a visited name to a group name. */
  ghost function LinksOver(from: set<string>, names: set<string>, g: Adjacency): set<set<string>>
  {
    set a, b | a in from && a in g && b in g[a] && b in names :: {a, b}
  }

  /** Every in-group connection of the group with names `names`, as an unordered pair. */
  ghost function Links(names: set<string>, g: Adjacency): set<set<string>>
  {
    LinksOver(names, names, g)
  }

  /**
   * What the listing promises: each entry is a sorted pair of group names
   * joined by an edge, every such connection is listed, and none twice.
   */
  ghost predicate ListsConnections(r: seq<seq<string>>, names: set<string>, g: Adjacency)
  {
    && (forall i :: 0 <= i < |r| ==> Ascending(r[i]) && Elems(r[i]) in Links(names, g))
    && (forall l :: l in Links(names, g) ==> exists i :: 0 <= i < |r| && Elems(r[i]) == l)
    && (forall i, j :: 0 <= i < j < |r| ==> Elems(r[i]) != Elems(r[j]))
  }

  /** Visiting one more name adds the pairs of its in-group neighbours. */
  lemma LinksOverAdd(from: set<string>, names: set<string>, g: Adjacency, n: string)
    ensures LinksOver(from + {n}, names, g)
         == LinksOver(from, names, g) + (set b | n in g && b in g[n] && b in names :: {n, b})
  {
    var l := LinksOver(from + {n}, names, g);
    var r := LinksOver(from, names, g) + (set b | n in g && b in g[n] && b in names :: {n, b});
    forall s | s in l ensures s in r {
      var a, b :| a in from + {n} && a in g && b in g[a] && b in names && s == {a, b};
      if a == n {
        assert s in (set b | n in g && b in g[n] && b in names :: {n, b});
      } else {
        assert s in LinksOver(from, names, g);
      }
    }
  }

  /** `sorted(list(frozenset([a, b])))`: the pair's one or two names in ascending order. */
  function SortedPair(a: string, b: string): (p: seq<string>)
    ensures Elems(p) == {a, b} && Ascending(p)
  {
    if a == b then [a]
    else if StrLess(a, b) then [a, b]
    else StrLessTotal(a, b); [b, a]
  }

  /** The pairs collected over the group's names, in the loop's visiting order. */
  method CollectLinks(group: seq<Location>, g: Adjacency) returns (pairs: set<set<string>>)
    ensures pairs == Links(NamesOf(group), g)
  {
    var names := NamesOf(group);
    pairs := {};
    ghost var done: set<string> := {};
    var i := 0;
    while i < |group|
      invariant 0 <= i <= |group|
      invariant done == NamesOf(group[..i])
      invariant pairs == LinksOver(done, names, g)
    {
      var n := group[i].name;
      var around := if n in g then g[n] else {};
      var rest := around;
      while rest != {}
        invariant rest <= around
        invariant pairs == LinksOver(done, names, g) + (set b | b in around - rest && b in names :: {n, b})
        decreases rest
      {
        var b :| b in rest;
        if b in names {
          pairs := pairs + {{n, b}};
        }
        rest := rest - {b};
      }
      LinksOverAdd(done, names, g, n);
      assert (set b | b in around && b in names :: {n, b}) == (set b | n in g && b in g[n] && b in names :: {n, b});
      assert group[..i + 1] == group[..i] + [group[i]];
      done := done + {n};
      i := i + 1;
    }
    assert group[..i] == group;
  }

  /** `_get_connections_in_group`: the in-group connections, each once, each sorted. */
  method GroupConnections(group: seq<Location>, g: Adjacency) returns (r: seq<seq<string>>)
    ensures ListsConnections(r, NamesOf(group), g)
  {
    var pairs := CollectLinks(group, g);
    var order := Enumerate(pairs);
    r := [];
    var k := 0;
    while k < |order|
      invariant 0 <= k <= |order| && |r| == k
      invariant forall i :: 0 <= i < k ==> Ascending(r[i]) && Elems(r[i]) == order[i]
    {
      assert order[k] in LinksOver(NamesOf(group), NamesOf(group), g);
      var a, b :| a in NamesOf(group) && a in g && b in g[a] && b in NamesOf(group) && order[k] == {a, b};
      var p := SortedPair(a, b);
      r := r + [p];
      k := k + 1;
    }
    forall l | l in Links(NamesOf(group), g) ensures exists i :: 0 <= i < |r| && Elems(r[i]) == l {
      var i :| 0 <= i < |order| && order[i] == l;
      assert Elems(r[i]) == l;
    }
  }

  /** The first three names of an ascending list are distinct. */
  lemma AscendingHead(p: seq<string>)
    requires Ascending(p) && |p| >= 3
    ensures p[0] != p[1] && p[1] != p[2] && p[0] != p[2]
    ensures p[0] in Elems(p) && p[1] in Elems(p) && p[2] in Elems(p)
  {
    assert StrLess(p[0], p[1]) && StrLess(p[1], p[2]);
    StrLessIrreflexive(p[0]);
    StrLessIrreflexive(p[1]);
    if p[0] == p[2] {
      StrLessTotal(p[0], p[1]);
    }
  }

  /** Each listed pair names one or two group locations joined by an edge, in ascending order. */
  lemma ConnectionEndsInGroup(r: seq<seq<string>>, names: set<string>, g: Adjacency, i: nat)
    requires ListsConnections(r, names, g) && i < |r|
    ensures 1 <= |r[i]| <= 2
    ensures forall x :: x in r[i] ==> x in names
    ensures |r[i]| == 2 ==> StrLess(r[i][0], r[i][1])
    ensures |r[i]| == 2 ==> (r[i][0] in g && r[i][1] in g[r[i][0]]) || (r[i][1] in g && r[i][0] in g[r[i][1]])
    ensures |r[i]| == 1 ==> r[i][0] in g && r[i][0] in g[r[i][0]]
  {
    var p := r[i];
    assert Elems(p) in LinksOver(names, names, g);
    var a, b :| a in names && a in g && b in g[a] && b in names && Elems(p) == {a, b};
    assert a in Elems(p);
    if |p| > 2 {
      AscendingHead(p);
      assert false;
    } else if |p| == 2 {
      assert p[0] in Elems(p) && p[1] in Elems(p);
      StrLessIrreflexive(p[0]);
      assert {p[0], p[1]} == {a, b};
    } else {
      assert p[0] in Elems(p);
    }
  }

  /** An edge between two group locations is listed exactly once, whichever end lists it. */
  lemma ConnectionListedOnce(r: seq<seq<string>>, names: set<string>, g: Adjacency, a: string, b: string)
    requires ListsConnections(r, names, g)
    requires a in names && b in names && a in g && b in g[a]
    ensures exists i :: 0 <= i < |r| && Elems(r[i]) == {a, b}
    ensures forall i, j :: 0 <= i < |r| && 0 <= j < |r| && Elems(r[i]) == {a, b} && Elems(r[j]) == {b, a} ==> i == j
  {
    assert {a, b} in Links(names, g);
    assert {b, a} == {a, b};
  }

  // ---------------------------------------------------------------------------
  // The history section and its trimming
  // ---------------------------------------------------------------------------

  /** How many history entries of each location the prompt shows. */
  const HistoryDepth: nat := 15
  const TrimMarker: string := "[...история была обрезана...]\n"

  function Min(a: int, b: int): int { if a <= b then a else b }

  /** `h[-15:]`: the last entries of a location's history. */
  function LastEntries(h: seq<string>): (r: seq<string>)
    ensures |r| == Min(HistoryDepth, |h|)
    ensures r == h[|h| - |r|..]
  {
    if |h| <= HistoryDepth then h else h[|h| - HistoryDepth..]
  }

  /** One location's part of the history: a heading and its last entries, one per line. */
  function HistorySection(name: string, h: seq<string>): string
  {
    "#### Из локации: " + name + "\n" + Join(LastEntries(h), "\n")
  }

  /** The sections of a group, in group order, separated by blank lines. */
  function HistorySections(sections: seq<(string, seq<string>)>): (r: seq<string>)
    ensures |r| == |sections|
    ensures forall i :: 0 <= i < |sections| ==> r[i] == HistorySection(sections[i].0, sections[i].1)
  {
    seq(|sections|, i requires 0 <= i < |sections| => HistorySection(sections[i].0, sections[i].1))
  }

  function HistoryText(sections: seq<(string, seq<string>)>): string
  {
    Join(HistorySections(sections), "\n\n")
  }

  /** Python's `s[-k:]` for any integer `k`. */
  function PySuffix(s: string, k: int): (r: string)
    ensures |r| <= |s| && r == s[|s| - |r|..]
    ensures k > 0 ==> |r| == Min(k, |s|)
    ensures k == 0 ==> r == s
  {
    if k > 0 then s[|s| - Min(k, |s|)..]
    else if k == 0 then s
    else s[Min(-k, |s|)..]
  }

  /** `t.find(c)`: the first index of `c`, or -1. */
  function Find(t: string, c: char): (r: int)
    ensures -1 <= r < |t|
    ensures r == -1 <==> c !in t
    ensures r >= 0 ==> t[r] == c && c !in t[..r]
  {
    if t == [] then -1
    else if t[0] == c then 0
    else
      var k := Find(t[1..], c);
      if k == -1 then -1 else k + 1
  }

  /** What follows the first newline of `t`, or all of `t` when it has none. */
  function AfterFirstNewline(t: string): (r: string)
    ensures |r| <= |t| && r == t[|t| - |r|..]
    ensures '\n' !in t ==> r == t
    ensures '\n' in t ==> |r| < |t| && t[|t| - |r| - 1] == '\n' && '\n' !in t[..|t| - |r| - 1]
  {
    var i := Find(t, '\n');
    if i != -1 then t[i + 1..] else t
  }

  /** Lines 130-134 exactly as written, with Python's slice of `-max` characters. */
  function TrimHistoryAsWritten(h: string, max: int): string
  {
    if |h| > max then TrimMarker + AfterFirstNewline(PySuffix(h, max)) else h
  }

  /** The kept tail: at most `max` characters, none when `max` is not positive. */
  function Tail(h: string, max: int): (r: string)
    ensures |r| == if max <= 0 then 0 else Min(max, |h|)
    ensures r == h[|h| - |r|..]
  {
    if max <= 0 then [] else h[|h| - Min(max, |h|)..]
  }

  /** The history trimming as intended: the marker line and at most `max` characters of the end. */
  function TrimHistory(h: string, max: int): string
  {
    if |h| > max then TrimMarker + AfterFirstNewline(Tail(h, max)) else h
  }

  /**
   * What the trimming keeps of `h`: a suffix of at most `max` characters
   * (none when `max` is not positive); when the cut tail had a newline, the
   * text up to its first newline is dropped, so the kept text starts a line.
   */
  ghost predicate KeptOf(kept: string, h: string, max: int)
  {
    var t := Tail(h, max);
    && |kept| <= |t| && |kept| <= (if max <= 0 then 0 else max)
    && kept == h[|h| - |kept|..]
    && ('\n' in t ==> |kept| < |t| && h[|h| - |kept| - 1] == '\n' && '\n' !in t[..|t| - |kept| - 1])
    && ('\n' !in t ==> kept == t)
  }

  /** A history within the limit is kept; a longer one becomes the marker followed by what is kept of it. */
  lemma TrimHistoryBounds(h: string, max: int)
    ensures |h| <= max ==> TrimHistory(h, max) == h
    ensures |h| > max ==> exists kept :: TrimHistory(h, max) == TrimMarker + kept && KeptOf(kept, h, max)
  {
    if |h| > max {
      KeptAfterFirstNewline(h, max);
    }
  }

  /** What follows the first newline of the kept tail is what the trimming keeps. */
  lemma KeptAfterFirstNewline(h: string, max: int)
    ensures KeptOf(AfterFirstNewline(Tail(h, max)), h, max)
  {
    var t := Tail(h, max);
    var kept := AfterFirstNewline(t);
    assert kept == t[|t| - |kept|..];
    if '\n' in t {
      assert h[|h| - |kept| - 1] == t[|t| - |kept| - 1];
    }
  }

  /** For a positive limit the code as written trims as intended. */
  lemma TrimAsWrittenPositive(h: string, max: int)
    requires max > 0
    ensures TrimHistoryAsWritten(h, max) == TrimHistory(h, max)
  {
    if |h| > max {
      assert PySuffix(h, max) == Tail(h, max);
    }
  }

  /** With a limit of 0, `h[-0:]` is the whole history, so everything after its first line is kept. */
  lemma TrimAsWrittenZeroKeepsAll()
    ensures TrimHistoryAsWritten("ab\ncd", 0) == TrimMarker + "cd"
    ensures TrimHistory("ab\ncd", 0) == TrimMarker
  {
    assert PySuffix("ab\ncd", 0) == "ab\ncd";
    assert Find("ab\ncd", '\n') == 2 by {
      assert "ab\ncd"[0] != '\n' && "ab\ncd"[1] != '\n' && "ab\ncd"[2] == '\n';
      assert "ab\ncd"[1..][1..] == "\ncd";
    }
    assert "ab\ncd"[3..] == "cd";
    assert Tail("ab\ncd", 0) == [];
    assert AfterFirstNewline([]) == [];
  }

  // ---------------------------------------------------------------------------
  // The actions line
  // ---------------------------------------------------------------------------

  /** The line shown when nobody acts, written in words so that its characters can be checked word by word. */
  const IdleLine: string := "- Игроки" + " бездействуют," + " осматриваясь" + " по" + " сторонам."

  lemma IdleLineHasNoColon()
    ensures ':' !in IdleLine
  {
    assert ':' !in "- Игроки";
    assert ':' !in " бездействуют,";
    assert ':' !in " осматриваясь";
    assert ':' !in " по";
    assert ':' !in " сторонам.";
  }

  /** `player_actions_map.update(loc.pending_actions)` over the group, in group order. */
  function MergeActions(pendings: seq<map<string, string>>): map<string, string>
  {
    if pendings == [] then map[] else MergeActions(pendings[..|pendings| - 1]) + pendings[|pendings| - 1]
  }

  /**
   * Every pending action of the group is in the merged map, nothing else is,
   * and a player pending in several locations keeps the action of the last.
   */
  lemma {:induction false} MergeActionsLastWins(pendings: seq<map<string, string>>, u: string)
    ensures u in MergeActions(pendings) <==> exists i :: 0 <= i < |pendings| && u in pendings[i]
    ensures forall i :: 0 <= i < |pendings| && u in pendings[i] && (forall j :: i < j < |pendings| ==> u !in pendings[j])
                        ==> MergeActions(pendings)[u] == pendings[i][u]
  {
    if pendings != [] {
      var init := pendings[..|pendings| - 1];
      var last := pendings[|pendings| - 1];
      assert forall i :: 0 <= i < |init| ==> init[i] == pendings[i];
      MergeActionsLastWins(init, u);
      if u !in last {
        if exists i :: 0 <= i < |pendings| && u in pendings[i] {
          var i :| 0 <= i < |pendings| && u in pendings[i];
          assert i < |init| && u in init[i];
        }
      }
    }
  }

  lemma HeadIn(s: seq<string>)
    requires s != []
    ensures s[0] in s
  {
  }

  function ActionLine(u: string, action: string): string
  {
    "- " + u + ": " + action
  }

  /** The action lines, in the map's iteration order `order`. */
  function ActionLines(m: map<string, string>, order: seq<string>): (r: seq<string>)
    requires forall u :: u in order ==> u in m
    ensures |r| == |order| && forall k :: 0 <= k < |order| ==> r[k] == ActionLine(order[k], m[order[k]])
  {
    seq(|order|, k requires 0 <= k < |order| => ActionLine(order[k], m[order[k]]))
  }

  /** `"\n".join(lines) or IdleLine`, where `order` lists each key of the merged map once. */
  function ActionsText(m: map<string, string>, order: seq<string>): string
    requires NoDuplicates(order) && forall u :: u in order <==> u in m
  {
    var s := Join(ActionLines(m, order), "\n");
    if s == "" then IdleLine else s
  }

  /** The idle line appears exactly when no action is pending; otherwise every action has its line. */
  lemma {:induction false} ActionsIdleIffNone(m: map<string, string>, order: seq<string>)
    requires NoDuplicates(order) && forall u :: u in order <==> u in m
    ensures ActionsText(m, order) == IdleLine <==> m == map[]
    ensures m != map[] ==> ActionsText(m, order) == Join(ActionLines(m, order), "\n")
  {
    var lines := ActionLines(m, order);
    if m == map[] {
      if order != [] {
        HeadIn(order);
        assert false;
      }
    } else {
      var u :| u in m;
      assert u in order;
      var line := lines[0];
      assert line == ("- " + order[0]) + (": " + m[order[0]]);
      assert line[|order[0]| + 2] == ':';
      JoinContainsPart(lines, "\n", 0, ':');
      IdleLineHasNoColon();
    }
  }

  // ---------------------------------------------------------------------------
  // Principles, scene focus and the merge-conflict check
  // ---------------------------------------------------------------------------

  datatype Principles = Immersion | Narrative

  /** Which principles the prompt shows, from the main location's counter. */
  function ChoosePrinciples(counter: nat, immersionTurns: int): (r: Principles)
    ensures r == Immersion <==> counter < immersionTurns
  {
    if counter < immersionTurns then Immersion else Narrative
  }

  /** Whether the prompt asks for scene focus: early turns of a location with story data. */
  predicate WantsFocus(counter: nat, injectionTurns: int, stories: map<string, Story>, main: string)
  {
    counter < injectionTurns && main in stories
  }

  /** Once a location leaves its opening turns it keeps the narrative principles and gets no focus. */
  lemma SelectionSettles(c1: nat, c2: nat, immersionTurns: int, injectionTurns: int, stories: map<string, Story>, main: string)
    requires c1 <= c2
    ensures ChoosePrinciples(c1, immersionTurns) == Narrative ==> ChoosePrinciples(c2, immersionTurns) == Narrative
    ensures WantsFocus(c2, injectionTurns, stories, main) ==> WantsFocus(c1, injectionTurns, stories, main)
  {
  }

  /** `desc_map`: for each location name of the group, the descriptions it has there. */
  function Descriptions(entries: seq<(string, string)>): map<string, set<string>>
  {
    if entries == [] then map[]
    else
      var rest := Descriptions(entries[..|entries| - 1]);
      var (n, d) := entries[|entries| - 1];
      rest[n := (if n in rest then rest[n] else {}) + {d}]
  }

  /** A name is in `desc_map` when some location has it, with exactly the descriptions paired with it. */
  lemma {:induction false} DescriptionsAt(entries: seq<(string, string)>, n: string)
    ensures n in Descriptions(entries) <==> exists i :: 0 <= i < |entries| && entries[i].0 == n
    ensures n in Descriptions(entries) ==> forall d :: d in Descriptions(entries)[n] <==> (n, d) in entries
  {
    if entries != [] {
      var init := entries[..|entries| - 1];
      var last := entries[|entries| - 1];
      assert entries == init + [last];
      DescriptionsAt(init, n);
      if n != last.0 && exists i :: 0 <= i < |entries| && entries[i].0 == n {
        var i :| 0 <= i < |entries| && entries[i].0 == n;
        assert i < |init| && init[i].0 == n;
      }
    }
  }

  /** The names whose descriptions disagree. */
  function ConflictingNames(entries: seq<(string, string)>): set<string>
  {
    var m := Descriptions(entries);
    set n | n in m && |m[n]| > 1
  }

  /** Whether the prompt gets the merge-conflict section: counters differ and some name disagrees. */
  predicate MergeConflict(counters: set<nat>, entries: seq<(string, string)>)
  {
    |counters| > 1 && ConflictingNames(entries) != {}
  }

  /** A name is conflicting exactly when it comes with two different descriptions. */
  lemma ConflictIffTwoVersions(entries: seq<(string, string)>, n: string)
    ensures n in ConflictingNames(entries) <==> exists d1, d2 :: d1 != d2 && (n, d1) in entries && (n, d2) in entries
  {
    var m := Descriptions(entries);
    DescriptionsAt(entries, n);
    if n in ConflictingNames(entries) {
      var d1 :| d1 in m[n];
      assert m[n] - {d1} != {};
      var d2 :| d2 in m[n] - {d1};
      assert (n, d1) in entries && (n, d2) in entries;
    }
    if exists d1, d2 :: d1 != d2 && (n, d1) in entries && (n, d2) in entries {
      var d1, d2 :| d1 != d2 && (n, d1) in entries && (n, d2) in entries;
      var i :| 0 <= i < |entries| && entries[i] == (n, d1);
      assert entries[i].0 == n;
      var rest := m[n] - {d1};
      assert d2 in rest;
      assert m[n] == {d1} + rest;
      assert |m[n]| == 1 + |rest|;
    }
  }

  /** The names of distinct locations are distinct, so they never conflict, whatever the counters. */
  lemma DistinctNamesNoConflict(counters: set<nat>, entries: seq<(string, string)>)
    requires forall i, j :: 0 <= i < j < |entries| ==> entries[i].0 != entries[j].0
    ensures ConflictingNames(entries) == {}
    ensures !MergeConflict(counters, entries)
  {
    forall n | n in ConflictingNames(entries) ensures false {
      ConflictIffTwoVersions(entries, n);
    }
  }

  // ---------------------------------------------------------------------------
  // Story-element bookkeeping (`_select_and_update_focus_elements`)
  // ---------------------------------------------------------------------------

  /** `ALL_ELEMENT_CATEGORIES`: the label each element category is shown with. */
  const Labels: map<string, string> := map[
    "sounds" := "ЗВУК", "sights" := "ОБРАЗ", "sensations" := "ОЩУЩЕНИЕ",
    "psychological_effects" := "ЭФФЕКТ", "unsettling_discovery" := "НАХОДКА",
    "warning_sign" := "ЗНАК", "mysterious_encounter" := "ВСТРЕЧА"]

  /** `FIXED_ELEMENT_STRUCTURE`: how many elements of each category one prompt asks for, in order. */
  const Structure: seq<(string, nat)> := [
    ("sounds", 2), ("sights", 1), ("sensations", 1), ("psychological_effects", 1),
    ("unsettling_discovery", 1), ("warning_sign", 1), ("mysterious_encounter", 1)]

  /** How many draws one selection makes in all. */
  function SlotCount(st: seq<(string, nat)>): nat
  {
    if st == [] then 0 else st[0].1 + SlotCount(st[1..])
  }

  /**
   * `all_sources[fear][category]`: the details table when it has the
   * category for this fear kind, the events table otherwise; empty when
   * neither has it.
   */
  function Pool(details: Elements, events: Elements, fear: string, category: string): seq<string>
  {
    var source := if fear in details && category in details[fear] then details else events;
    if fear in source && category in source[fear] then source[fear][category] else []
  }

  /** `[item for item in pool if item not in used_items]`. */
  function Available(pool: seq<string>, used: set<string>): (r: seq<string>)
    ensures forall x :: x in r <==> x in pool && x !in used
  {
    if pool == [] then []
    else (if pool[0] in used then [] else [pool[0]]) + Available(pool[1..], used)
  }

  /** The total of the fear weights, in the population's order. */
  function Total(population: seq<string>, weights: map<string, int>): int
    requires forall f :: f in population ==> f in weights
  {
    if population == [] then 0 else weights[population[0]] + Total(population[1..], weights)
  }

  /** A recorded element: its category and the item chosen. */
  datatype Pick = Pick(category: string, item: string)

  function PickLine(p: Pick): string
    requires p.category in Labels
  {
    "- " + Labels[p.category] + ": " + p.item
  }

  function PickLines(picks: seq<Pick>): (r: seq<string>)
    requires forall k :: 0 <= k < |picks| ==> picks[k].category in Labels
    ensures |r| == |picks| && forall k :: 0 <= k < |picks| ==> r[k] == PickLine(picks[k])
  {
    seq(|picks|, k requires 0 <= k < |picks| => PickLine(picks[k]))
  }

  function Items(picks: seq<Pick>): (r: seq<string>)
    ensures |r| == |picks| && forall k :: 0 <= k < |picks| ==> r[k] == picks[k].item
  {
    seq(|picks|, k requires 0 <= k < |picks| => picks[k].item)
  }

  function ItemSet(picks: seq<Pick>): set<string>
  {
    set k | 0 <= k < |picks| :: picks[k].item
  }

  lemma ItemSetAppend(picks: seq<Pick>, p: Pick)
    ensures ItemSet(picks + [p]) == ItemSet(picks) + {p.item}
  {
    var q := picks + [p];
    assert q[|picks|] == p;
    forall x | x in ItemSet(q) ensures x in ItemSet(picks) + {p.item} {
      var k :| 0 <= k < |q| && q[k].item == x;
      if k < |picks| {
        assert q[k] == picks[k];
      }
    }
    forall x | x in ItemSet(picks) ensures x in ItemSet(q) {
      var k :| 0 <= k < |picks| && picks[k].item == x;
      assert q[k] == picks[k];
    }
  }

  lemma ItemsAsSet(picks: seq<Pick>)
    ensures (set x | x in Items(picks)) == ItemSet(picks)
  {
    var items := Items(picks);
    forall x | x in items ensures x in ItemSet(picks) {
      var k :| 0 <= k < |items| && items[k] == x;
    }
  }

  /** An element drawn for `category` from the pool of some fear kind. */
  ghost predicate Drawn(p: Pick, weights: map<string, int>, details: Elements, events: Elements)
  {
    p.category in Labels && p.item != "" && exists f :: f in weights && p.item in Pool(details, events, f, p.category)
  }

  /**
   * The bookkeeping a selection keeps: the used set grew by exactly the
   * recorded items, which are non-empty, were unused before, are pairwise
   * distinct and come from the pools of their categories.
   */
  ghost predicate Bookkeeping(used0: set<string>, used: set<string>, picks: seq<Pick>,
                              weights: map<string, int>, details: Elements, events: Elements)
  {
    && used == used0 + ItemSet(picks)
    && (forall k :: 0 <= k < |picks| ==> Drawn(picks[k], weights, details, events) && picks[k].item !in used0)
    && (forall i, j :: 0 <= i < j < |picks| ==> picks[i].item != picks[j].item)
  }

  /**
   * The fallback search: the fear kinds in the shuffled order `order`, the
   * first one with an unused element yields a draw from those.
   * Nothing is found exactly when every pool of the category is used up.
   */
  method FallbackPick(order: seq<string>, details: Elements, events: Elements, category: string,
                      used: set<string>, draw: nat) returns (chosen: Option<string>)
    ensures chosen.None? <==> forall f :: f in order ==> Available(Pool(details, events, f, category), used) == []
    ensures chosen.Some? ==> exists f :: f in order && chosen.value in Pool(details, events, f, category) && chosen.value !in used
  {
    chosen := None;
    var i := 0;
    while i < |order|
      invariant 0 <= i <= |order|
      invariant forall k :: 0 <= k < i ==> Available(Pool(details, events, order[k], category), used) == []
    {
      var available := Available(Pool(details, events, order[i], category), used);
      if available != [] {
        chosen := Some(available[draw % |available|]);
        assert available[draw % |available|] in available;
        return;
      }
      i := i + 1;
    }
  }

  /**
   * One draw for `category`: a weighted pick of a fear kind (which raises,
   * and is skipped, when there are no fear kinds or the weights total at most
   * zero) and of an unused element of its pool, then the fallback search when
   * that gave nothing truthy. `fearDraw` and the item draws stand for the
   * random choices. Nothing comes out exactly when every pool is used up.
   */
  method DrawSlot(population: seq<string>, weights: map<string, int>, details: Elements, events: Elements,
                  category: string, used: set<string>, fearDraw: nat, itemDraw: nat, fallbackDraw: nat)
    returns (chosen: Option<string>)
    requires NoDuplicates(population) && forall f :: f in population <==> f in weights
    ensures chosen.None? <==> forall f :: f in weights ==> Available(Pool(details, events, f, category), used) == []
    ensures chosen.Some? ==> exists f :: f in weights && chosen.value in Pool(details, events, f, category) && chosen.value !in used
  {
    chosen := None;
    if |population| > 0 && Total(population, weights) > 0 {
      var fear := population[fearDraw % |population|];
      var available := Available(Pool(details, events, fear, category), used);
      if available != [] {
        chosen := Some(available[itemDraw % |available|]);
        assert available[itemDraw % |available|] in available;
      }
    }
    if !Truthy(chosen) {
      var shuffled := Enumerate(weights.Keys);
      chosen := FallbackPick(shuffled, details, events, category, used, fallbackDraw);
    }
  }

  /** Records a truthy draw: the label line, the used set and the newly used items. */
  method Record(category: string, chosen: Option<string>, used: set<string>, lines: seq<string>,
                newly: seq<string>, ghost picks: seq<Pick>)
    returns (used': set<string>, lines': seq<string>, newly': seq<string>, ghost picks': seq<Pick>)
    requires category in Labels
    ensures Truthy(chosen) ==> used' == used + {chosen.value} && picks' == picks + [Pick(category, chosen.value)]
                               && lines' == lines + [PickLine(Pick(category, chosen.value))] && newly' == newly + [chosen.value]
    ensures !Truthy(chosen) ==> used' == used && lines' == lines && newly' == newly && picks' == picks
  {
    used', lines', newly', picks' := used, lines, newly, picks;
    if Truthy(chosen) {
      var item := chosen.value;
      lines' := lines + ["- " + Labels[category] + ": " + item];
      used' := used + {item};
      newly' := newly + [item];
      picks' := picks + [Pick(category, item)];
    }
  }

  /** One recorded draw keeps the bookkeeping. */
  lemma BookkeepingStep(used0: set<string>, used: set<string>, picks: seq<Pick>, p: Pick,
                        weights: map<string, int>, details: Elements, events: Elements)
    requires Bookkeeping(used0, used, picks, weights, details, events)
    requires Drawn(p, weights, details, events) && p.item !in used
    ensures Bookkeeping(used0, used + {p.item}, picks + [p], weights, details, events)
  {
    ItemSetAppend(picks, p);
    var q := picks + [p];
    forall i, j | 0 <= i < j < |q| ensures q[i].item != q[j].item {
      if j == |picks| {
        assert q[i] == picks[i] && picks[i].item in ItemSet(picks);
      } else {
        assert q[i] == picks[i] && q[j] == picks[j];
      }
    }
  }

  /**
   * One slot of the selection: a draw for `category`, recorded when truthy;
   * the bookkeeping is kept and at most one element is added.
   */
  method FillSlot(population: seq<string>, weights: map<string, int>, details: Elements, events: Elements,
                  category: string, ghost used0: set<string>, used: set<string>, lines: seq<string>,
                  newly: seq<string>, ghost picks: seq<Pick>, fearDraw: nat, itemDraw: nat, fallbackDraw: nat)
    returns (used': set<string>, lines': seq<string>, newly': seq<string>, ghost picks': seq<Pick>)
    requires NoDuplicates(population) && forall f :: f in population <==> f in weights
    requires category in Labels
    requires Bookkeeping(used0, used, picks, weights, details, events)
    requires lines == PickLines(picks) && newly == Items(picks)
    ensures Bookkeeping(used0, used', picks', weights, details, events)
    ensures lines' == PickLines(picks') && newly' == Items(picks')
    ensures |picks'| <= |picks| + 1
  {
    var chosen := DrawSlot(population, weights, details, events, category, used, fearDraw, itemDraw, fallbackDraw);
    used', lines', newly', picks' := Record(category, chosen, used, lines, newly, picks);
    if Truthy(chosen) {
      BookkeepingStep(used0, used, picks, Pick(category, chosen.value), weights, details, events);
    }
  }

  /** The draw oracle: one number per slot and stage (the fear pick, the item pick, the fallback item pick). */
  type Oracle = (nat, nat) -> nat

  /** Every category of `Structure` has a label. */
  lemma StructureLabelled()
    ensures forall k :: 0 <= k < |Structure| ==> Structure[k].0 in Labels
  {
  }

  /** The inner loop, `for _ in range(count)`: `count` slots of one category, numbered from `slot`. */
  method FillCategory(population: seq<string>, weights: map<string, int>, details: Elements, events: Elements,
                      category: string, count: nat, slot: nat, ghost used0: set<string>, used: set<string>,
                      lines: seq<string>, newly: seq<string>, ghost picks: seq<Pick>, draws: Oracle)
    returns (used': set<string>, lines': seq<string>, newly': seq<string>, ghost picks': seq<Pick>)
    requires NoDuplicates(population) && forall f :: f in population <==> f in weights
    requires category in Labels
    requires Bookkeeping(used0, used, picks, weights, details, events)
    requires lines == PickLines(picks) && newly == Items(picks)
    ensures Bookkeeping(used0, used', picks', weights, details, events)
    ensures lines' == PickLines(picks') && newly' == Items(picks')
    ensures |picks'| <= |picks| + count
  {
    used', lines', newly', picks' := used, lines, newly, picks;
    var n := 0;
    while n < count
      invariant 0 <= n <= count
      invariant Bookkeeping(used0, used', picks', weights, details, events)
      invariant lines' == PickLines(picks') && newly' == Items(picks')
      invariant |picks'| <= |picks| + n
    {
      used', lines', newly', picks' := FillSlot(population, weights, details, events, category, used0, used', lines', newly', picks',
                                                draws(slot + n, 0), draws(slot + n, 1), draws(slot + n, 2));
      n := n + 1;
    }
  }

  /** The outer loop over the categories of `structure` and their counts, on the local copy of the used set. */
  method FillAll(structure: seq<(string, nat)>, population: seq<string>, weights: map<string, int>,
                 details: Elements, events: Elements, used0: set<string>, draws: Oracle)
    returns (lines: seq<string>, newly: seq<string>, ghost picks: seq<Pick>)
    requires forall k :: 0 <= k < |structure| ==> structure[k].0 in Labels
    requires NoDuplicates(population) && forall f :: f in population <==> f in weights
    ensures Bookkeeping(used0, used0 + ItemSet(picks), picks, weights, details, events)
    ensures lines == PickLines(picks) && newly == Items(picks)
    ensures |picks| <= SlotCount(structure)
  {
    var used := used0;
    lines, newly, picks := [], [], [];
    var slot := 0;
    var c := 0;
    while c < |structure|
      invariant 0 <= c <= |structure|
      invariant Bookkeeping(used0, used, picks, weights, details, events)
      invariant |picks| + SlotCount(structure[c..]) <= SlotCount(structure)
      invariant lines == PickLines(picks) && newly == Items(picks)
    {
      var (category, count) := structure[c];
      assert structure[c..][1..] == structure[c + 1..];
      used, lines, newly, picks := FillCategory(population, weights, details, events, category, count, slot,
                                                used0, used, lines, newly, picks, draws);
      slot := slot + count;
      c := c + 1;
    }
    assert used == used0 + ItemSet(picks);
  }

  /**
   * `_select_and_update_focus_elements`: draws `Structure`'s slots in order,
   * records each truthy element, adds the recorded items to the location's
   * used set and returns the label lines joined by newlines.
   */
  method SelectFocusElements(loc: Location, weights: map<string, int>, details: Elements, events: Elements, draws: Oracle)
    returns (text: string, ghost picks: seq<Pick>)
    modifies loc`usedStoryElements
    ensures Bookkeeping(old(loc.usedStoryElements), loc.usedStoryElements, picks, weights, details, events)
    ensures |picks| <= SlotCount(Structure)
    ensures text == Join(PickLines(picks), "\n")
  {
    var population := Enumerate(weights.Keys);
    var lines, newly;
    StructureLabelled();
    lines, newly, picks := FillAll(Structure, population, weights, details, events, loc.usedStoryElements, draws);
    if newly != [] {
      loc.usedStoryElements := loc.usedStoryElements + (set x | x in newly);
    }
    ItemsAsSet(picks);
    text := Join(lines, "\n");
  }

  /**
   * Lines 141-144: the focus section is built, and elements are used up,
   * only in the main location's early turns and when the story knows it.
   */
  method SceneFocus(main: Location, injectionTurns: int, stories: map<string, Story>,
                    weights: map<string, int>, draws: Oracle)
    returns (text: string, ghost picks: seq<Pick>)
    modifies main`usedStoryElements
    ensures !WantsFocus(main.turnCounter, injectionTurns, stories, main.name) ==>
      text == "" && picks == [] && main.usedStoryElements == old(main.usedStoryElements)
    ensures WantsFocus(main.turnCounter, injectionTurns, stories, main.name) ==>
      var story := stories[main.name];
      && Bookkeeping(old(main.usedStoryElements), main.usedStoryElements, picks, weights, story.details, story.events)
      && |picks| <= SlotCount(Structure)
      && text == Join(PickLines(picks), "\n")
  {
    text, picks := "", [];
    if WantsFocus(main.turnCounter, injectionTurns, stories, main.name) {
      var story := stories[main.name];
      text, picks := SelectFocusElements(main, weights, story.details, story.events, draws);
    }
  }
}
