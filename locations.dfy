/**
 * A shared location (`server/game/state.py`, class `Location`): its players,
 * the actions pending for the turn in progress, an append-only tagged history
 * and the turn counter.
 */
module Locations {
  import opened Common

  function SystemEntry(message: string): string { "SYSTEM " + message }
  function ActionEntry(username: string, action: string): string { "ACTION " + username + ": " + action }
  function NarrateEntry(narration: string): string { "NARRATE " + narration }

  /** The history line every location starts with. */
  function WorldEntry(description: string): string { SystemEntry("Мир вокруг: " + description) }
  function JoinEntry(username: string): string { SystemEntry(username + " появляется.") }
  function LeaveEntry(username: string): string { SystemEntry(username + " исчезает.") }

  class Location {
    const name: string
    var description: string
    var playersPresent: set<string>
    var conversationHistory: seq<string>
    var usedStoryElements: set<string>
    var turnCounter: nat
    var pendingActions: map<string, string>

    /** Everything but the description is as a location built from `description` has it. */
    ghost predicate IsBlank(description: string)
      reads this`playersPresent, this`conversationHistory, this`usedStoryElements, this`turnCounter, this`pendingActions
    {
      && playersPresent == {}
      && conversationHistory == [WorldEntry(description)]
      && usedStoryElements == {}
      && turnCounter == 0
      && pendingActions == map[]
    }

    /** The state of a location just built from `description`. */
    ghost predicate IsInitial(description: string)
      reads this
    {
      this.description == description && IsBlank(description)
    }

    constructor (name: string, initialDescription: string)
      ensures this.name == name && IsInitial(initialDescription)
    {
      this.name := name;
      description := initialDescription;
      playersPresent := {};
      conversationHistory := [WorldEntry(initialDescription)];
      usedStoryElements := {};
      turnCounter := 0;
      pendingActions := map[];
    }

    method AddPlayer(username: string)
      modifies this`playersPresent, this`conversationHistory
      ensures playersPresent == old(playersPresent) + {username}
      ensures conversationHistory == old(conversationHistory) + [JoinEntry(username)]
    {
      playersPresent := playersPresent + {username};
      AddSystemMessageToHistory(username + " появляется.");
    }

    /** Drops the player from those present and from the pending actions. */
    method RemovePlayer(username: string)
      modifies this`playersPresent, this`pendingActions, this`conversationHistory
      ensures playersPresent == old(playersPresent) - {username}
      ensures pendingActions == old(pendingActions) - {username}
      ensures conversationHistory == old(conversationHistory) + [LeaveEntry(username)]
    {
      playersPresent := playersPresent - {username};
      pendingActions := pendingActions - {username};
      AddSystemMessageToHistory(username + " исчезает.");
    }

    method AddPlayerActionToHistory(username: string, action: string)
      modifies this`conversationHistory
      ensures conversationHistory == old(conversationHistory) + [ActionEntry(username, action)]
    {
      conversationHistory := conversationHistory + [ActionEntry(username, action)];
    }

    /** Records the narration stripped of surrounding whitespace; a blank narration leaves no entry. */
    method AddNarrationToHistory(narration: string)
      modifies this`conversationHistory
      ensures Strip(narration) == [] ==> conversationHistory == old(conversationHistory)
      ensures Strip(narration) != [] ==> conversationHistory == old(conversationHistory) + [NarrateEntry(Strip(narration))]
    {
      var clean := Strip(narration);
      if clean == [] {
        return;
      }
      conversationHistory := conversationHistory + [NarrateEntry(clean)];
    }

    method AddSystemMessageToHistory(message: string)
      modifies this`conversationHistory
      ensures conversationHistory == old(conversationHistory) + [SystemEntry(message)]
    {
      conversationHistory := conversationHistory + [SystemEntry(message)];
    }

    method ClearTurnData()
      modifies this`pendingActions
      ensures pendingActions == map[]
    {
      pendingActions := map[];
    }
  }
}
