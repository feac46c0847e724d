/**
 * The card counter itself: the two closure variables `players` and `bank`
 * as fields of one object, and one method per handler of card_counter.js,
 * each updating the fields in place, card by card, as the script does.
 * Every method is proved to leave the fields exactly where the matching
 * function of Reconcile puts them, and to keep the ledger invariant.
 */
module CardCounter {
  import opened Wrappers
  import opened Model
  import opened Sums
  import R = Reconcile

  /** `Object.values(cards).reduce((sum, count) => sum + count, 0)`. */
  method TotalCount(cards: map<int, int>) returns (total: int)
    ensures total == SumValues(cards)
  {
    total := 0;
    var todo := cards.Keys;
    assert cards - todo == map[];
    while todo != {}
      invariant todo <= cards.Keys
      invariant total == SumValues(cards - todo)
      decreases todo
    {
      NonEmptyHasElement(todo);
      var k :| k in todo;
      SumValuesUpdate(cards - todo, k, cards[k]);
      assert (cards - todo)[k := cards[k]] == cards - (todo - {k});
      total := total + cards[k];
      todo := todo - {k};
    }
    assert cards - todo == cards;
  }

  /**
   * `Object.keys(cards).find(k => cards[k] > 0)`: the smallest key with a
   * positive count (integer keys are visited in ascending order), or none.
   */
  method FirstPositiveKind(cards: map<int, int>) returns (found: Option<int>)
    ensures found.None? <==> forall k :: k in cards ==> cards[k] <= 0
    ensures found.Some? ==> R.IsFirstPositive(cards, found.value)
    ensures found == R.FirstPositive(cards)
  {
    found := None;
    var todo := cards.Keys;
    while todo != {}
      invariant todo <= cards.Keys
      invariant found.None? ==> forall k :: k in cards && k !in todo ==> cards[k] <= 0
      invariant found.Some? ==> found.value in cards && found.value !in todo && cards[found.value] > 0
      invariant found.Some? ==> forall k :: k in cards && k !in todo && k < found.value ==> cards[k] <= 0
      decreases todo
    {
      NonEmptyHasElement(todo);
      var k :| k in todo;
      if cards[k] > 0 && (found.None? || k < found.value) {
        found := Some(k);
      }
      todo := todo - {k};
    }
  }

  /** The card map rebuilt from `resourceCards.cards`, one array slot at a time. */
  method CardsFromArray(counts: seq<int>) returns (cards: map<int, int>)
    ensures cards == R.CardsFromCounts(counts)
  {
    cards := map[];
    for i := 0 to |counts|
      invariant cards == R.CardsFromCounts(counts[..i])
    {
      assert counts[..i + 1][..i] == counts[..i];
      if counts[i] > 0 {
        cards := cards[i + 1 := counts[i]];
      }
    }
    assert counts[..|counts|] == counts;
  }

  class Ledger {
    /** Colour id to player entry. */
    var players: map<int, Player>
    /** Resource kind to the bank's count. */
    var bank: map<int, int>
    /** How many times the overlay has been asked to redraw (`updateUI`). */
    var renders: nat

    function Snapshot(): Books
      reads this
    {
      Books(players, bank)
    }

    ghost predicate Valid()
      reads this
    {
      R.Valid(Snapshot())
    }

    constructor ()
      ensures Snapshot() == R.Initial()
      ensures renders == 0
      ensures Valid()
    {
      players := map[];
      bank := map[1 := StartingSupply, 2 := StartingSupply, 3 := StartingSupply,
                  4 := StartingSupply, 5 := StartingSupply];
      renders := 0;
    }

    /** `handleMessage`: route on the type tag, then redraw once whatever the tag was. */
    method HandleMessage(m: Message)
      requires Valid()
      requires R.MessageDefined(players.Keys, m)
      modifies this
      ensures Valid()
      ensures Snapshot() == R.Process(old(Snapshot()), m)
      ensures renders == old(renders) + 1
    {
      if m.data.Some? {
        var d := m.data.value;
        match R.RouteOf(d.tag) {
          case ToRoster => InitializePlayers(d.payload.playerUserStates);
          case ToStateDiff => HandleGameStateUpdate(d.payload.diff);
          case ToGrant => HandleResourceDistribution(d.payload.distributions);
          case ToSpend =>
            HandleResourceSpending(d.payload.givingPlayer, d.payload.givingCards, d.payload.receivingPlayer);
          case Ignore =>
        }
      }
      renders := renders + 1;
    }

    /** `initializePlayers`: a roster replaces `players` wholesale; the bank is kept. */
    method InitializePlayers(users: Option<seq<UserState>>)
      requires Valid()
      modifies this`players
      ensures Valid()
      ensures Snapshot() == R.InitPlayers(old(Snapshot()), users)
    {
      if users.Some? {
        var us := users.value;
        players := map[];
        for i := 0 to |us|
          invariant players == R.Roster(us[..i])
        {
          assert us[..i + 1][..i] == us[..i];
          players := players[us[i].selectedColor := R.NewPlayer(us[i].username)];
        }
        assert us[..|us|] == us;
      }
    }

    /** `handleGameStateUpdate`: player states, then bank state, then the game log. */
    method HandleGameStateUpdate(diff: Option<Diff>)
      requires Valid()
      requires diff.Some? ==> R.DiffDefined(players.Keys, diff.value)
      modifies this`players, this`bank
      ensures Valid()
      ensures Snapshot() == R.StateUpdate(old(Snapshot()), diff)
    {
      if diff.Some? {
        var d := diff.value;
        if d.playerStates.Some? {
          HandlePlayerStates(d.playerStates.value);
        }
        if d.bankResourceCards.Some? {
          HandleBankState(d.bankResourceCards.value);
        }
        if d.gameLogState.Some? {
          HandleGameLogUpdates(d.gameLogState.value);
        }
      }
    }

    /** The `playerStates` loop of `handleGameStateUpdate`; each colour is independent, so the visiting order is immaterial. */
    method HandlePlayerStates(states: map<int, PlayerState>)
      requires Valid()
      requires forall c :: c in states && R.Touches(states[c]) ==> c in players
      modifies this`players
      ensures Valid()
      ensures players == R.ApplyPlayerStates(old(players), states)
    {
      var todo := states.Keys;
      assert states - todo == map[];
      assert R.ApplyPlayerStates(players, map[]) == players;
      while todo != {}
        invariant todo <= states.Keys
        invariant players == R.ApplyPlayerStates(old(players), states - todo)
        decreases todo
      {
        NonEmptyHasElement(todo);
        var c :| c in todo;
        var s := states[c];
        R.ApplyPlayerStatesStep(old(players), states, todo, c);
        if R.Touches(s) {
          var p := players[c];
          assert p == old(players)[c];
          if s.resourceCards.Some? {
            var cards := CardsFromArray(s.resourceCards.value);
            p := p.(cards := cards);
          }
          if s.developmentCards.Some? {
            p := p.(devCards := |s.developmentCards.value|);
          }
          players := players[c := p];
        }
        todo := todo - {c};
      }
      assert states - todo == states;
    }

    /** The `bankState.resourceCards` loop: absolute overwrites of the listed kinds. */
    method HandleBankState(listed: map<int, int>)
      requires Valid()
      modifies this`bank
      ensures Valid()
      ensures bank == R.OverwriteBank(old(bank), listed)
    {
      var todo := listed.Keys;
      assert listed - todo == map[];
      while todo != {}
        invariant todo <= listed.Keys
        invariant bank == old(bank) + (listed - todo)
        decreases todo
      {
        NonEmptyHasElement(todo);
        var k :| k in todo;
        bank := bank[k := listed[k]];
        todo := todo - {k};
      }
      assert listed - todo == listed;
    }

    /** `handleResourceDistribution`: each grant to a known owner moves one card from the bank. */
    method HandleResourceDistribution(gs: seq<Grant>)
      requires Valid()
      modifies this`players, this`bank
      ensures Valid()
      ensures Snapshot() == R.Distribute(old(Snapshot()), gs)
    {
      for i := 0 to |gs|
        invariant Valid()
        invariant Snapshot() == R.Distribute(old(Snapshot()), gs[..i])
      {
        assert gs[..i + 1][..i] == gs[..i];
        var g := gs[i];
        if g.owner in players {
          players := players[g.owner := R.Credit(players[g.owner], g.card)];
          bank := bank[g.card := bank[g.card] - 1];
        }
      }
      assert gs[..|gs|] == gs;
    }

    /** `handleResourceSpending`: only a player (not colour 0) paying the bank (colour 0) is applied. */
    method HandleResourceSpending(giver: int, cards: seq<Kind>, receiver: int)
      requires Valid()
      modifies this`players, this`bank
      ensures Valid()
      ensures Snapshot() == R.Spend(old(Snapshot()), giver, cards, receiver)
    {
      if giver != BankColor && receiver == BankColor {
        for i := 0 to |cards|
          invariant Valid()
          invariant giver in players <==> giver in old(players)
          invariant giver in players ==> Snapshot() == R.ReturnCards(old(Snapshot()), giver, cards[..i])
          invariant giver !in players ==> Snapshot() == old(Snapshot())
        {
          assert cards[..i + 1][..i] == cards[..i];
          var k := cards[i];
          if giver in players {
            players := players[giver := R.Debit(players[giver], k)];
            bank := bank[k := bank[k] + 1];
          }
        }
        assert cards[..|cards|] == cards;
      }
    }

    /** `handleGameLogUpdates`: the entries in ascending id order, dispatched on their type. */
    method HandleGameLogUpdates(logs: seq<Log>)
      requires Valid()
      requires R.LogsDefined(players.Keys, logs)
      modifies this`players, this`bank
      ensures Valid()
      ensures Snapshot() == R.ApplyLogs(old(Snapshot()), logs)
    {
      for i := 0 to |logs|
        invariant Valid()
        invariant players.Keys == old(players).Keys
        invariant Snapshot() == R.ApplyLogs(old(Snapshot()), logs[..i])
      {
        assert logs[..i + 1][..i] == logs[..i];
        var log := logs[i];
        match R.LogRouteOf(log.tag) {
          case ToTrade =>
            HandleTrade(log.body.playerColor, log.body.acceptingPlayerColor,
                        log.body.givenCardEnums, log.body.receivedCardEnums);
          case ToDiscard => HandleDiscard(log.body.playerColor, log.body.cardEnums);
          case ToSteal => HandleRobberSteal(log.body.playerColorThief, log.body.playerColorVictim);
          case ToDevCardPlay => HandleDevCardPlay(log.body.playerColor, log.body.cardEnum);
          case Skip =>
        }
      }
      assert logs[..|logs|] == logs;
    }

    /** `handleTrade`: given cards move initiator to acceptor, then received cards move back. */
    method HandleTrade(initiator: int, acceptor: int, given: seq<Kind>, received: seq<Kind>)
      requires Valid()
      requires (given == [] && received == []) || (initiator in players && acceptor in players)
      modifies this`players
      ensures Valid()
      ensures Snapshot() == R.Trade(old(Snapshot()), initiator, acceptor, given, received)
    {
      TransferCards(initiator, acceptor, given);
      TransferCards(acceptor, initiator, received);
    }

    /** One `forEach` of `handleTrade`: each card is debited (clamped) from `from` and credited to `to`. */
    method TransferCards(from: int, to: int, ks: seq<Kind>)
      requires ks == [] || (from in players && to in players)
      modifies this`players
      ensures players == R.TransferAll(old(players), from, to, ks)
    {
      for i := 0 to |ks|
        invariant players == R.TransferAll(old(players), from, to, ks[..i])
      {
        assert ks[..i + 1][..i] == ks[..i];
        var k := ks[i];
        players := players[from := R.Debit(players[from], k)];
        players := players[to := R.Credit(players[to], k)];
      }
      assert ks[..|ks|] == ks;
    }

    /** `handleDiscard`: every listed card is debited (clamped) and credited to the bank. */
    method HandleDiscard(color: int, cards: seq<Kind>)
      requires Valid()
      requires cards == [] || color in players
      modifies this`players, this`bank
      ensures Valid()
      ensures Snapshot() == R.ReturnCards(old(Snapshot()), color, cards)
    {
      for i := 0 to |cards|
        invariant Valid()
        invariant Snapshot() == R.ReturnCards(old(Snapshot()), color, cards[..i])
      {
        assert cards[..i + 1][..i] == cards[..i];
        var k := cards[i];
        players := players[color := R.Debit(players[color], k)];
        bank := bank[k := bank[k] + 1];
      }
      assert cards[..|cards|] == cards;
    }

    /** `handleRobberSteal`: the victim's first positive kind moves to the thief when the victim holds anything. */
    method HandleRobberSteal(thief: int, victim: int)
      requires Valid()
      requires thief in players && victim in players
      modifies this`players
      ensures Valid()
      ensures Snapshot() == R.Steal(old(Snapshot()), thief, victim)
    {
      var victimCards := players[victim].cards;
      var total := TotalCount(victimCards);
      if total > 0 {
        var found := FirstPositiveKind(victimCards);
        if found.Some? {
          var k := found.value;
          players := players[victim := players[victim].(cards := victimCards[k := victimCards[k] - 1])];
          players := players[thief := R.Credit(players[thief], k)];
        }
      }
    }

    /**
     * `handleDevCardPlay`: one development card fewer, never below zero.
     * `cardEnum` is read but changes nothing: Monopoly (13) and Year of
     * Plenty (14) move resources through later grant and spend messages.
     */
    method HandleDevCardPlay(color: int, cardEnum: int)
      requires Valid()
      requires color in players
      modifies this`players
      ensures Valid()
      ensures Snapshot() == R.PlayDevCard(old(Snapshot()), color)
    {
      var p := players[color];
      players := players[color := p.(devCards := R.Max(0, (if p.devCards != 0 then p.devCards else 1) - 1))];
    }
  }
}
