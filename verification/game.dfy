/**
 The local mirror of a tic-tac-toe game kept by the command-line client, and
 the reducers that apply server-pushed actions to it.

 Each reducer maps the current state and one inbound action to the next
 state. The Go code mutates the state in place through a pointer; here every
 reducer returns a new value, and the fields a reducer does not assign are
 carried over unchanged.
 */
module Game {
  import Decimal

  /** A board cell: "" when empty, otherwise the token placed there. */
  type Cell = string

  predicate IsBoard(b: seq<seq<Cell>>) {
    |b| == 3 && forall i :: 0 <= i < |b| ==> |b[i]| == 3
  }

  /** A 3x3 grid of cells, indexed by row then column. */
  type Board = b: seq<seq<Cell>> | IsBoard(b)
    witness [["", "", ""], ["", "", ""], ["", "", ""]]

  /** One player slot. The id is never assigned by a reducer; the name is the decimal id. */
  datatype Player = Player(id: int, name: string, token: string)

  /** Exactly two player slots, in join order. */
  type Slots = s: seq<Player> | |s| == 2
    witness [Player(0, "", ""), Player(0, "", "")]

  datatype GameState = GameState(
    board: Board,
    players: Slots,
    activePlayerIndex: int,
    winner: string,
    draw: bool)

  /** An inbound action, as the decoder hands it to the game loop. */
  datatype Action =
    | Join(playerId: int)
    | Start(playerId: int, yourToken: string, opponentId: string, firstTurn: string)
    | Update(board: Board, nextTurn: string, winner: string)
    | Other

  const EmptyBoard: Board := [["", "", ""], ["", "", ""], ["", "", ""]]

  /** The zero value the game starts from: no names, no tokens, an empty board. */
  const Initial: GameState :=
    GameState(EmptyBoard, [Player(0, "", ""), Player(0, "", "")], 0, "", false)

  /** The active index names one of the two slots. */
  predicate ValidIndex(s: GameState) {
    s.activePlayerIndex == 0 || s.activePlayerIndex == 1
  }

  predicate IsToken(t: string) {
    t == "x" || t == "o"
  }

  /** Both slots hold a token, and the tokens differ. */
  predicate TokensComplementary(s: GameState) {
    IsToken(s.players[0].token) && IsToken(s.players[1].token)
    && s.players[0].token != s.players[1].token
  }

  /** Neither the board nor the turn, winner or draw flag differ. */
  predicate SameTable(s: GameState, r: GameState) {
    r.board == s.board && r.activePlayerIndex == s.activePlayerIndex
    && r.winner == s.winner && r.draw == s.draw
  }

  /** The number of slots whose name is set. */
  function Filled(s: GameState): nat {
    (if s.players[0].name != "" then 1 else 0) + (if s.players[1].name != "" then 1 else 0)
  }

  /**
   A player joins: the first slot without a name receives the joiner's
   decimal id. When both slots are named the join is only logged.
   */
  function JoinReducer(s: GameState, playerId: int): (r: GameState)
    ensures SameTable(s, r)
    ensures forall i :: 0 <= i < 2 ==> r.players[i].token == s.players[i].token && r.players[i].id == s.players[i].id
    ensures forall i :: 0 <= i < 2 && s.players[i].name != "" ==> r.players[i] == s.players[i]
    ensures s.players[0].name == "" ==> r.players[0].name == Decimal.ToString(playerId) && r.players[1] == s.players[1]
    ensures s.players[0].name != "" && s.players[1].name == "" ==> r.players[1].name == Decimal.ToString(playerId)
    ensures Filled(r) == if Filled(s) == 2 then 2 else Filled(s) + 1
    ensures Filled(s) == 2 <==> r == s
  {
    var name := Decimal.ToString(playerId);
    if s.players[0].name == "" then
      s.(players := s.players[0 := s.players[0].(name := name)])
    else if s.players[1].name == "" then
      s.(players := s.players[1 := s.players[1].(name := name)])
    else
      s
  }

  /**
   The game starts: the caller takes slot 0 with the token the server gave
   it, the opponent takes slot 1 with the other token, and the turn goes to
   slot 0 exactly when the first-turn name is the caller's.
   */
  function StartReducer(s: GameState, playerId: int, yourToken: string, opponentId: string, firstTurn: string): (r: GameState)
    ensures r.board == s.board && r.winner == s.winner && r.draw == s.draw
    ensures r.players[0].id == s.players[0].id && r.players[1].id == s.players[1].id
    ensures r.players[0].name == Decimal.ToString(playerId) && r.players[0].token == yourToken
    ensures r.players[1].name == opponentId
    ensures IsToken(r.players[1].token)
    ensures r.players[1].token == "o" <==> yourToken == "x"
    ensures TokensComplementary(r) <==> IsToken(yourToken)
    ensures ValidIndex(r)
    ensures r.activePlayerIndex == 0 <==> firstTurn == r.players[0].name
  {
    var me := s.players[0].(token := yourToken, name := Decimal.ToString(playerId));
    var other := s.players[1].(token := if yourToken == "x" then "o" else "x", name := opponentId);
    s.(players := [me, other], activePlayerIndex := if firstTurn == me.name then 0 else 1)
  }

  /**
   The server pushes its authoritative board: the board and winner are
   replaced wholesale and the turn goes to the slot whose name is the
   next-turn name, defaulting to slot 1.
   */
  function UpdateReducer(s: GameState, board: Board, nextTurn: string, winner: string): (r: GameState)
    ensures r.board == board && r.winner == winner
    ensures r.players == s.players && r.draw == s.draw
    ensures ValidIndex(r)
    ensures r.activePlayerIndex == 0 <==> nextTurn == s.players[0].name
  {
    s.(board := board, winner := winner, activePlayerIndex := if nextTurn == s.players[0].name then 0 else 1)
  }

  /** The type-tag switch of the game loop: one reducer per known tag, no change otherwise. */
  function Reduce(s: GameState, a: Action): (r: GameState)
    ensures a.Other? ==> r == s
    ensures ValidIndex(s) ==> ValidIndex(r)
    ensures !a.Start? ==> r.players[0].token == s.players[0].token && r.players[1].token == s.players[1].token
    ensures a.Update? || a.Start? ==> ValidIndex(r)
  {
    match a
    case Join(id) => JoinReducer(s, id)
    case Start(id, yourToken, opponentId, firstTurn) => StartReducer(s, id, yourToken, opponentId, firstTurn)
    case Update(board, nextTurn, winner) => UpdateReducer(s, board, nextTurn, winner)
    case Other => s
  }

  /** The state after the game loop has applied the actions in arrival order. */
  function Replay(s: GameState, actions: seq<Action>): GameState
    decreases |actions|
  {
    if |actions| == 0 then s else Reduce(Replay(s, actions[..|actions| - 1]), actions[|actions| - 1])
  }

  /** The game loop draining its queue: each action is reduced in arrival order. */
  method Run(s: GameState, actions: seq<Action>) returns (r: GameState)
    ensures r == Replay(s, actions)
    ensures ValidIndex(s) ==> ValidIndex(r)
  {
    r := s;
    var i := 0;
    while i < |actions|
      invariant 0 <= i <= |actions|
      invariant r == Replay(s, actions[..i])
      invariant ValidIndex(s) ==> ValidIndex(r)
    {
      assert actions[..i + 1][..i] == actions[..i];
      r := Reduce(r, actions[i]);
      i := i + 1;
    }
    assert actions[..|actions|] == actions;
  }
}
