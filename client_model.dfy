/**
 * The client's UI data model (`client/model.py`, class `ClientDataModel`):
 * the one place the screens read from. The lobby chat is a bounded buffer
 * that drops its oldest messages once full; its capacity can be changed
 * while keeping the newest messages.
 */
module ClientModel {
  import opened Common

  /** The screen classes the model can point at. */
  datatype Screen = LoginState | LobbyState | GameState

  /** `type(state).__name__`, as `state_name` returns it. */
  function ScreenName(s: Screen): (r: string)
    ensures r != ""
  {
    match s
    case LoginState => "LoginState"
    case LobbyState => "LobbyState"
    case GameState => "GameState"
  }

  /** The capacity of the lobby buffer a new model starts with. */
  const DefaultLobbyCapacity: nat := 100

  /** `deque(messages, maxlen=capacity)`: the last `capacity` messages, in order. */
  function Bounded(messages: seq<string>, capacity: nat): (r: seq<string>)
    ensures |r| == if |messages| <= capacity then |messages| else capacity
    ensures r == messages[|messages| - |r|..]
  {
    if |messages| <= capacity then messages else messages[|messages| - capacity..]
  }

  /** Bounding twice by the same capacity changes nothing more. */
  lemma BoundedIdempotent(messages: seq<string>, capacity: nat)
    ensures Bounded(Bounded(messages, capacity), capacity) == Bounded(messages, capacity)
  {
  }

  /** Shrinking and then bounding again keeps the newest messages of the original. */
  lemma {:induction false} BoundedCompose(messages: seq<string>, c1: nat, c2: nat)
    requires c2 <= c1
    ensures Bounded(Bounded(messages, c1), c2) == Bounded(messages, c2)
  {
    var n := |messages|;
    if c1 < n {
      var once := messages[n - c1..];
      assert Bounded(messages, c1) == once;
      assert once[c1 - c2..] == messages[n - c2..];
    }
  }

  class ClientDataModel {
    var screen: Screen
    var isConnected: bool
    var username: Option<string>
    var playersInLobby: seq<string>
    var lobbyMessages: seq<string>
    var lobbyCapacity: nat
    var gameLog: seq<string>
    var inputBuffer: string
    var statusLineContent: string
    var scrollOffset: int
    var commandOutput: Option<string>

    /** A bounded buffer never holds more than its capacity, which is positive. */
    ghost predicate Valid()
      reads this
    {
      0 < lobbyCapacity && |lobbyMessages| <= lobbyCapacity
    }

    constructor ()
      ensures Valid()
      ensures screen == LoginState && !isConnected && username == None && playersInLobby == []
      ensures lobbyMessages == [] && lobbyCapacity == DefaultLobbyCapacity
      ensures gameLog == [] && inputBuffer == "" && statusLineContent == "" && scrollOffset == 0 && commandOutput == None
    {
      screen := LoginState;
      isConnected := false;
      username := None;
      playersInLobby := [];
      lobbyMessages := [];
      lobbyCapacity := DefaultLobbyCapacity;
      gameLog := [];
      inputBuffer := "";
      statusLineContent := "";
      scrollOffset := 0;
      commandOutput := None;
    }

    /** `state_name`. */
    function StateName(): string
      reads this
    {
      ScreenName(screen)
    }

    /**
     * `set_lobby_message_capacity`: a positive capacity other than the
     * current one rebuilds the buffer with it, keeping the newest messages
     * in order; anything else changes nothing. No other field changes.
     */
    method SetLobbyMessageCapacity(newCapacity: int)
      requires Valid()
      modifies this`lobbyMessages, this`lobbyCapacity
      ensures Valid()
      ensures newCapacity <= 0 || newCapacity == old(lobbyCapacity) ==>
        lobbyMessages == old(lobbyMessages) && lobbyCapacity == old(lobbyCapacity)
      ensures 0 < newCapacity && newCapacity != old(lobbyCapacity) ==>
        lobbyCapacity == newCapacity && lobbyMessages == Bounded(old(lobbyMessages), newCapacity)
    {
      if 0 < newCapacity && newCapacity != lobbyCapacity {
        var current := lobbyMessages;
        lobbyMessages := Bounded(current, newCapacity);
        lobbyCapacity := newCapacity;
      }
    }
  }
}
