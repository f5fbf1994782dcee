# Tic-tac-toe client game-state reducer, in Dafny

The hexagun websocket client keeps a local mirror of a tic-tac-toe game: two
player slots (name and token each), a 3x3 board, the index of the player whose
turn it is, a winner and a draw flag. The server pushes actions over the
socket, and a game loop applies each one to the mirror through a switch on its
type tag:

- **join** fills the first player slot that has no name with the joiner's
  decimal id; when both slots are named the join is only logged;
- **start** gives slot 0 the caller's id and the token the server assigned,
  gives slot 1 the opponent's id and the other token, and sets the turn;
- **gamestateupdate** replaces the board and winner and recomputes the turn;
- any other tag leaves the state as it is.

The model has three modules:

- `Decimal` (`decimal.dfy`): the decimal text of an integer id, as both
  `fmt.Sprintf("%d", …)` and `strconv.Itoa` write it, with its inverse and the
  proof that rendering is injective.
- `Game` (`game.dfy`): the `Player`, `GameState` and `Action` datatypes, the
  zero state, the three reducers, the dispatch switch `Reduce`, and `Replay` /
  `Run`, which apply a queue of actions in arrival order.
- `GameProperties` (`properties.dfy`): arrival order of joins, the invariants
  kept over any run of actions, idempotence of update and start, and the
  join-join-start scenario.

The Go code mutates the state in place through a pointer; each reducer here
returns a new immutable `GameState`. The action payloads, which Go reads
through unchecked type assertions on an interface value, are the fields of a
sum type `Action = Join | Start | Update | Other`, so a payload can never have
the wrong shape.

## Model

| member | source | states |
|---|---|---|
| Decimal.Digits | main.go:67 | the rendering of a natural number is non-empty, made only of digit characters, and has no leading zero unless it is the single digit 0 |
| Decimal.ToString | main.go:157 | an id renders to non-empty text that starts with a minus sign exactly when the id is negative and is digits after that, with no leading zero (so never "05", "00" or "-05") |
| Decimal.DigitsRoundTrip | main.go:74 | reading back the digits of a natural number gives that number |
| Decimal.RoundTrip | main.go:157 | parsing the decimal text of any id gives the id back |
| Decimal.CanonicalDigitsRoundTrip | main.go:74 | a canonical digit string is the rendering of the number it reads as |
| Decimal.CanonicalIffRendering | main.go:157 | text is the rendering of some id if and only if it is in canonical form, and then it renders the id it parses to |
| Decimal.Injective | main.go:67 | two ids render to the same name if and only if they are equal |
| Game.JoinReducer | main.go:63-84 | an empty slot 0 receives the joiner's id and slot 1 is kept; otherwise an empty slot 1 receives it; a named slot is never changed; tokens, ids, board, turn, winner and draw are kept; the number of named slots grows by one unless both were named, and the state is unchanged exactly when both were named |
| Game.StartReducer | main.go:147-172 | slot 0 gets the caller's id and the given token, slot 1 gets the opponent's id and a token in {x, o} that is "o" iff the given token is "x"; the tokens are complementary iff the given token is x or o; the turn is slot 0 iff the first-turn name equals the caller's name, else slot 1; board, winner, draw and ids are kept |
| Game.UpdateReducer | main.go:124-137 | board and winner become the pushed ones (an empty winner clears it); players and draw are kept; the turn is slot 0 iff the next-turn name equals slot 0's name, else slot 1 |
| Game.Reduce | main.go:182-190 | an unknown tag changes nothing; every action keeps the active index at 0 or 1; only start changes tokens; update and start always leave a valid index |
| Game.Run | main.go:174-191 | the game loop applies queued actions one at a time in arrival order, keeping the active index valid |
| GameProperties.JoinsFillInArrivalOrder | main.go:63-84 | from two unnamed slots, a run of joins names slot 0 after the first joiner and slot 1 after the second, every further join changes nothing, and no join touches board, turn, winner or draw |
| GameProperties.ReplayKeepsValidIndex | main.go:182-190 | any run of actions from a state with index 0 or 1 ends with index 0 or 1 |
| GameProperties.InitialKeepsValidIndex | main.go:50-56 | from the zero state the active index is 0 or 1 after any run of actions |
| GameProperties.ReduceKeepsTokens | main.go:156-163 | from complementary tokens, an action leaves them complementary iff it is not a start with a token other than x or o |
| GameProperties.ReplayKeepsTokens | main.go:182-190 | joins, updates, unknown actions and starts whose token is x or o never break complementary tokens |
| GameProperties.UpdateIdempotent | main.go:124-137 | applying the same update twice gives the state one application gives |
| GameProperties.StartIdempotent | main.go:147-172 | delivering the same start twice gives the state one delivery gives |
| GameProperties.UpdateActivatesNamedPlayer | main.go:130-134 | when the next-turn name belongs to one of the two slots, that slot becomes active |
| GameProperties.StartActivatesNamedPlayer | main.go:165-171 | when the first-turn name is the caller's or the opponent's, that player becomes active |
| GameProperties.StartTurnByIdentity | main.go:167-171 | a first-turn name in canonical decimal form gives the caller the turn if and only if it parses to the caller's id |
| GameProperties.UpdateTurnByIdentity | main.go:130-134 | when slot 0 holds an id's rendering, a next-turn name in canonical decimal form makes slot 0 active if and only if it parses to that id |
| GameProperties.NonCanonicalTurnNameGoesToSlot1 | main.go:167-171 | names are compared as text: a first-turn name "042" reads as 42 yet hands the turn to slot 1 when the caller is 42 |
| GameProperties.JoinJoinStartScenario | main.go:63-172 | from the zero state, joins by 42 and 7 and a start giving 42 token x and the first turn yield slot 0 = ("42", x), slot 1 = ("7", o), active index 0, an empty board and no winner |

## Left out

- The websocket client (`Connect`, `IsConnected`, `Close`, main.go:197-230): network I/O, a fatal exit on dial failure and panics on misuse.
- The interactive shell and the receive goroutine (`main`, main.go:232-329): standard input parsing, JSON decoding, socket writes.
- The channel plumbing of `Dispatch` and `GameLoop` (main.go:59-61, 174-195): concurrency; only the order in which actions are applied is modelled, by `Game.Run`.
- `Draw` (main.go:86-122): console output only.
- `GenerateCustomID` (main.go:41-44): cryptographic randomness.
- The message decoder, the action constructors and the JSON envelope of the `common` package: that package is not part of this model; its output is taken to be an `Action` value.
- The game id carried in every action header: no reducer reads it.
- The log line for a rejected join (main.go:82), which formats an int with `%s`: it affects only log output.
- Go's 64-bit `int`: ids are unbounded integers here. The decimal text of every id in the 64-bit range is the same either way, and no reducer does arithmetic on ids.
- The panics of the unchecked type assertions on the payload (main.go:127, main.go:154): an `Action` carries the payload of its own case, so a start can never arrive with an update payload or the other way round, and the model has no panic path.
- The `Player.id` field is modelled but, as in the source, no reducer ever assigns it.
