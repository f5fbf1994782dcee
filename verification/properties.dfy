/**
 Properties of the game-state reducers that relate several actions: arrival
 order of joins, idempotence of a repeated update or start, invariants kept
 by any sequence of actions, and the join-join-start scenario.
 */
module GameProperties {
  import Decimal
  import opened Game

  predicate AllJoins(actions: seq<Action>) {
    forall i :: 0 <= i < |actions| ==> actions[i].Join?
  }

  /**
   From a state with no names, a run of joins names slot 0 after the first
   joiner and slot 1 after the second; every later join is rejected and
   changes nothing. Joins never touch the board, turn, winner or tokens.
   */
  lemma {:induction false} JoinsFillInArrivalOrder(s: GameState, actions: seq<Action>)
    requires s.players[0].name == "" && s.players[1].name == ""
    requires AllJoins(actions)
    ensures SameTable(s, Replay(s, actions))
    ensures |actions| == 0 ==> Replay(s, actions).players == s.players
    ensures |actions| >= 1 ==> Replay(s, actions).players[0] == s.players[0].(name := Decimal.ToString(actions[0].playerId))
    ensures |actions| <= 1 ==> Replay(s, actions).players[1] == s.players[1]
    ensures |actions| >= 2 ==> Replay(s, actions).players[1] == s.players[1].(name := Decimal.ToString(actions[1].playerId))
    ensures |actions| >= 2 ==> Replay(s, actions) == Replay(s, actions[..2])
    decreases |actions|
  {
    if |actions| > 0 {
      var n := |actions|;
      var prefix := actions[..n - 1];
      assert AllJoins(prefix) by {
        forall i | 0 <= i < |prefix| ensures prefix[i].Join? {
          assert prefix[i] == actions[i];
        }
      }
      JoinsFillInArrivalOrder(s, prefix);
      assert actions[n - 1].Join?;
      if n >= 2 {
        assert prefix[0] == actions[0];
      }
      if n >= 3 {
        assert prefix[1] == actions[1];
        assert prefix[..2] == actions[..2];
      }
    }
  }

  /** Every reducer keeps the active index at 0 or 1, over any run of actions. */
  lemma {:induction false} ReplayKeepsValidIndex(s: GameState, actions: seq<Action>)
    requires ValidIndex(s)
    ensures ValidIndex(Replay(s, actions))
    decreases |actions|
  {
    if |actions| > 0 {
      ReplayKeepsValidIndex(s, actions[..|actions| - 1]);
    }
  }

  /** The zero state has index 0, so the index is 0 or 1 at every point of a game. */
  lemma InitialKeepsValidIndex(actions: seq<Action>)
    ensures ValidIndex(Replay(Initial, actions))
  {
    ReplayKeepsValidIndex(Initial, actions);
  }

  /** Once the tokens are complementary, only a Start with an invalid token can break that. */
  lemma ReduceKeepsTokens(s: GameState, a: Action)
    requires TokensComplementary(s)
    ensures TokensComplementary(Reduce(s, a)) <==> !a.Start? || IsToken(a.yourToken)
  {
  }

  /** Every start in the run hands out a token in {x, o}. */
  predicate StartsGiveTokens(actions: seq<Action>) {
    forall i :: 0 <= i < |actions| && actions[i].Start? ==> IsToken(actions[i].yourToken)
  }

  /**
   Joins, updates, unknown actions and (re)delivered starts with a valid
   token keep the two tokens complementary.
   */
  lemma {:induction false} ReplayKeepsTokens(s: GameState, actions: seq<Action>)
    requires TokensComplementary(s)
    requires StartsGiveTokens(actions)
    ensures TokensComplementary(Replay(s, actions))
    decreases |actions|
  {
    if |actions| > 0 {
      var prefix := actions[..|actions| - 1];
      assert StartsGiveTokens(prefix) by {
        forall i | 0 <= i < |prefix| && prefix[i].Start? ensures IsToken(prefix[i].yourToken) {
          assert prefix[i] == actions[i];
        }
      }
      ReplayKeepsTokens(s, prefix);
      ReduceKeepsTokens(Replay(s, prefix), actions[|actions| - 1]);
    }
  }

  /** Applying the same update twice leaves the state the first application produced. */
  lemma UpdateIdempotent(s: GameState, board: Board, nextTurn: string, winner: string)
    ensures Reduce(Reduce(s, Update(board, nextTurn, winner)), Update(board, nextTurn, winner))
         == Reduce(s, Update(board, nextTurn, winner))
  {
  }

  /** A start that is delivered again overwrites the state with the same values. */
  lemma StartIdempotent(s: GameState, id: int, yourToken: string, opponentId: string, firstTurn: string)
    ensures Reduce(Reduce(s, Start(id, yourToken, opponentId, firstTurn)), Start(id, yourToken, opponentId, firstTurn))
         == Reduce(s, Start(id, yourToken, opponentId, firstTurn))
  {
  }

  /** When the next-turn name is one of the players, the update makes that player active. */
  lemma UpdateActivatesNamedPlayer(s: GameState, board: Board, nextTurn: string, winner: string)
    requires nextTurn == s.players[0].name || nextTurn == s.players[1].name
    ensures var r := Reduce(s, Update(board, nextTurn, winner));
      r.players[r.activePlayerIndex].name == nextTurn
  {
  }

  /** When the first-turn name is one of the new players, the start makes that player active. */
  lemma StartActivatesNamedPlayer(s: GameState, id: int, yourToken: string, opponentId: string, firstTurn: string)
    requires firstTurn == Decimal.ToString(id) || firstTurn == opponentId
    ensures var r := Reduce(s, Start(id, yourToken, opponentId, firstTurn));
      r.players[r.activePlayerIndex].name == firstTurn
  {
  }

  /**
   A first-turn name in Go's decimal form gives the caller the turn exactly
   when it is the caller's id: the comparison of names is a comparison of ids.
   */
  lemma StartTurnByIdentity(s: GameState, id: int, yourToken: string, opponentId: string, firstTurn: string)
    requires Decimal.Canonical(firstTurn)
    ensures Reduce(s, Start(id, yourToken, opponentId, firstTurn)).activePlayerIndex == 0
        <==> Decimal.Parse(firstTurn) == id
  {
    Decimal.CanonicalIffRendering(firstTurn);
    Decimal.Injective(Decimal.Parse(firstTurn), id);
  }

  /**
   A next-turn name in Go's decimal form makes slot 0 active exactly when it
   is the rendering of the id that slot 0's name renders.
   */
  lemma UpdateTurnByIdentity(s: GameState, id: int, board: Board, nextTurn: string, winner: string)
    requires s.players[0].name == Decimal.ToString(id)
    requires Decimal.Canonical(nextTurn)
    ensures Reduce(s, Update(board, nextTurn, winner)).activePlayerIndex == 0
        <==> Decimal.Parse(nextTurn) == id
  {
    Decimal.CanonicalIffRendering(nextTurn);
    Decimal.Injective(Decimal.Parse(nextTurn), id);
  }

  /**
   Names are compared as text, not as numbers: a first-turn name "042" for
   the caller 42 is not the caller's name, so the turn goes to slot 1.
   */
  lemma NonCanonicalTurnNameGoesToSlot1(s: GameState)
    ensures Decimal.Parse("042") == 42
    ensures Reduce(s, Start(42, "x", "7", "042")).activePlayerIndex == 1
  {
    assert Decimal.ToString(42) == "42";
    assert Decimal.ParseDigits("042") == 42 by {
      assert "042"[..2] == "04";
      assert "04"[..1] == "0";
      assert "0"[..0] == "";
    }
  }

  /**
   Two players join (ids 42 and 7) and the server starts the game giving
   player 42 the token "x" and the first turn.
   */
  lemma JoinJoinStartScenario()
    ensures var r := Replay(Initial, [Join(42), Join(7), Start(42, "x", "7", "42")]);
      && r.players[0].name == "42" && r.players[0].token == "x"
      && r.players[1].name == "7" && r.players[1].token == "o"
      && r.activePlayerIndex == 0
      && r.board == EmptyBoard && r.winner == ""
  {
    var actions := [Join(42), Join(7), Start(42, "x", "7", "42")];
    assert Decimal.ToString(42) == "42";
    assert actions[..2][..1] == [Join(42)];
    assert actions[..2] == [Join(42), Join(7)];
    JoinsFillInArrivalOrder(Initial, actions[..2]);
  }
}
