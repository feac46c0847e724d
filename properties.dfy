/**
 * What the handlers guarantee: counts never go negative (the ledger
 * invariant kept by every function of Reconcile), how many cards each
 * handler moves between players and the bank, when the total supply of a
 * kind is conserved and by how much it drifts when a debit is clamped,
 * the robber policy, and the replace semantics of roster-init and of the
 * state diff.
 */
module Properties {
  import opened Wrappers
  import opened Model
  import opened Sums
  import opened Reconcile

  // ---------------------------------------------------------------------
  // Supply: bank plus every player's holding of one kind
  // ---------------------------------------------------------------------

  /** Each player's count of kind `k`, by colour. */
  ghost function Column(players: map<int, Player>, k: int): map<int, int>
  {
    map c | c in players :: Count(players[c].cards, k)
  }

  /** How many cards of kind `k` the players hold together. */
  ghost function Held(players: map<int, Player>, k: int): int
  {
    SumValues(Column(players, k))
  }

  /** The bank's count of `k` plus the players' holdings of `k`. */
  ghost function Supply(b: Books, k: int): int
  {
    Count(b.bank, k) + Held(b.players, k)
  }

  /** Replacing one player changes the players' holding by that player's difference. */
  lemma HeldUpdate(players: map<int, Player>, c: int, p: Player, k: int)
    requires c in players
    ensures Held(players[c := p], k) == Held(players, k) - Count(players[c].cards, k) + Count(p.cards, k)
  {
    assert Column(players[c := p], k) == Column(players, k)[c := Count(p.cards, k)];
    SumValuesUpdate(Column(players, k), c, Count(p.cards, k));
  }

  // ---------------------------------------------------------------------
  // Router
  // ---------------------------------------------------------------------

  /** A message without `data`, or with a tag other than 4, 91, 28 and 43, leaves the ledger as it was. */
  lemma IgnoredMessageChangesNothing(b: Books, m: Message)
    requires MessageDefined(b.players.Keys, m)
    requires m.data.None? || m.data.value.tag !in {RosterTag, StateDiffTag, GrantTag, SpendTag}
    ensures Process(b, m) == b
  {
  }

  /** Every message the script can handle keeps every count non-negative and the bank's five kinds present. */
  lemma ProcessKeepsCountsNonNegative(b: Books, m: Message, c: int, k: int)
    requires Valid(b) && MessageDefined(b.players.Keys, m)
    requires c in Process(b, m).players
    ensures Count(Process(b, m).players[c].cards, k) >= 0
    ensures Process(b, m).players[c].devCards >= 0
    ensures forall kind: Kind :: kind in Process(b, m).bank
  {
  }

  // ---------------------------------------------------------------------
  // Roster-init
  // ---------------------------------------------------------------------

  /** Entry `i` is the last roster entry with colour `c`. */
  ghost predicate LastEntryFor(users: seq<UserState>, c: int, i: int)
  {
    0 <= i < |users| && users[i].selectedColor == c
    && forall j :: i < j < |users| ==> users[j].selectedColor != c
  }

  /** The name a colour gets is that of the last roster entry with that colour. */
  lemma {:induction false} RosterNames(users: seq<UserState>, c: int)
    requires c in Roster(users)
    ensures exists i :: LastEntryFor(users, c, i) && Roster(users)[c].name == users[i].username
    decreases |users|
  {
    var n := |users| - 1;
    var prefix := users[..n];
    if users[n].selectedColor == c {
      assert LastEntryFor(users, c, n);
    } else {
      assert c in Roster(prefix);
      RosterNames(prefix, c);
      var i :| LastEntryFor(prefix, c, i) && Roster(prefix)[c].name == prefix[i].username;
      assert LastEntryFor(users, c, i);
    }
  }

  /**
   * Roster-init replaces `players` wholesale: exactly the listed colours,
   * each with the name of its last entry, no cards and no development
   * cards; the bank is untouched. Without `playerUserStates` nothing changes.
   */
  lemma RosterInitReplaces(b: Books, users: Option<seq<UserState>>)
    ensures users.None? ==> InitPlayers(b, users) == b
    ensures var r := InitPlayers(b, users);
      && r.bank == b.bank
      && (users.Some? ==>
            && r.players.Keys == (set u | u in users.value :: u.selectedColor)
            && forall c :: c in r.players ==>
                 && r.players[c].cards == map[]
                 && r.players[c].devCards == 0
                 && exists i :: LastEntryFor(users.value, c, i) && r.players[c].name == users.value[i].username)
  {
    if users.Some? {
      forall c | c in Roster(users.value)
        ensures exists i :: LastEntryFor(users.value, c, i) && Roster(users.value)[c].name == users.value[i].username
      {
        RosterNames(users.value, c);
      }
    }
  }

  // ---------------------------------------------------------------------
  // State diff
  // ---------------------------------------------------------------------

  /**
   * A player-state entry replaces, it does not add: the new cards hold
   * exactly the positive counts of the array, whatever the player held
   * before, and the development-card count becomes the array's length.
   */
  lemma PlayerStateReplaces(players: map<int, Player>, states: map<int, PlayerState>, c: int, k: int)
    requires c in players && c in states
    ensures var p := ApplyPlayerStates(players, states)[c];
      && p.name == players[c].name
      && (states[c].resourceCards.Some? ==>
            var counts := states[c].resourceCards.value;
            && (k in p.cards <==> 1 <= k <= |counts| && counts[k - 1] > 0)
            && Count(p.cards, k) == (if 1 <= k <= |counts| && counts[k - 1] > 0 then counts[k - 1] else 0))
      && (states[c].resourceCards.None? ==> p.cards == players[c].cards)
      && (states[c].developmentCards.Some? ==> p.devCards == |states[c].developmentCards.value|)
      && (states[c].developmentCards.None? ==> p.devCards == players[c].devCards)
  {
  }

  /** Colours absent from `playerStates` keep their entry. */
  lemma PlayerStatesKeepOthers(players: map<int, Player>, states: map<int, PlayerState>, c: int)
    requires c in players && c !in states
    ensures ApplyPlayerStates(players, states)[c] == players[c]
  {
  }

  /** The bank diff is absolute: applying the same diff twice is applying it once. */
  lemma BankStateIdempotent(bank: map<int, int>, listed: map<int, int>)
    ensures OverwriteBank(OverwriteBank(bank, listed), listed) == OverwriteBank(bank, listed)
  {
  }

  // ---------------------------------------------------------------------
  // Resource grant
  // ---------------------------------------------------------------------

  /** A grant to a known owner moves one card from bank to owner; one to an unknown owner is dropped. */
  lemma GrantOneEffect(b: Books, g: Grant, j: int)
    ensures g.owner !in b.players ==> GrantOne(b, g) == b
    ensures g.owner in b.players ==>
      var r := GrantOne(b, g);
      && Count(r.players[g.owner].cards, j) == Count(b.players[g.owner].cards, j) + (if j == g.card then 1 else 0)
      && Count(r.bank, j) == Count(b.bank, j) - (if j == g.card then 1 else 0)
      && r.players == b.players[g.owner := r.players[g.owner]]
      && r.players[g.owner].name == b.players[g.owner].name
      && r.players[g.owner].devCards == b.players[g.owner].devCards
  {
  }

  lemma GrantOneConserves(b: Books, g: Grant, k: int)
    ensures Supply(GrantOne(b, g), k) == Supply(b, k)
  {
    if g.owner in b.players {
      HeldUpdate(b.players, g.owner, Credit(b.players[g.owner], g.card), k);
    }
  }

  /** A resource-grant message never changes how many cards of a kind exist in bank and hands together. */
  lemma {:induction false} DistributeConserves(b: Books, gs: seq<Grant>, k: int)
    ensures Supply(Distribute(b, gs), k) == Supply(b, k)
    decreases |gs|
  {
    if gs != [] {
      var n := |gs| - 1;
      DistributeConserves(b, gs[..n], k);
      GrantOneConserves(Distribute(b, gs[..n]), gs[n], k);
    }
  }

  /** Right after a roster-init from the starting ledger, and after any grants, each kind totals 19. */
  lemma RosterThenGrantsTotalStartingSupply(users: seq<UserState>, gs: seq<Grant>, k: Kind)
    ensures Supply(Distribute(InitPlayers(Initial(), Some(users)), gs), k) == StartingSupply
  {
    var b := InitPlayers(Initial(), Some(users));
    SumValuesZero(Column(b.players, k));
    DistributeConserves(b, gs, k);
  }

  // ---------------------------------------------------------------------
  // Resource spend and discard
  // ---------------------------------------------------------------------

  /**
   * Paying `ks` to the bank: the bank gains one per listed card, while the
   * player's count falls by the same number but stops at zero.
   */
  lemma {:induction false} ReturnCardsEffect(b: Books, c: int, ks: seq<Kind>, j: int)
    requires c in b.players && PlayerValid(b.players[c])
    ensures var r := ReturnCards(b, c, ks);
      && Count(r.bank, j) == Count(b.bank, j) + multiset(ks)[j]
      && Count(r.players[c].cards, j) == Max(Count(b.players[c].cards, j) - multiset(ks)[j], 0)
      && r.players == b.players[c := r.players[c]]
      && r.players[c].name == b.players[c].name && r.players[c].devCards == b.players[c].devCards
      && PlayerValid(r.players[c])
    decreases |ks|
  {
    if ks != [] {
      var n := |ks| - 1;
      var k := ks[n];
      assert ks == ks[..n] + [k];
      assert multiset(ks)[j] == multiset(ks[..n])[j] + (if k == j then 1 else 0);
      var prev := ReturnCards(b, c, ks[..n]);
      ReturnCardsEffect(b, c, ks[..n], j);
      ReturnCardsEffect(b, c, ks[..n], k);
      PayBankEffect(prev, c, k, j);
    }
  }

  /** One card paid to the bank: the bank gains it, the player loses it unless they hold none. */
  lemma PayBankEffect(b: Books, c: int, k: Kind, j: int)
    requires c in b.players && PlayerValid(b.players[c])
    ensures var r := PayBank(b, c, k);
      && Count(r.bank, j) == Count(b.bank, j) + (if k == j then 1 else 0)
      && Count(r.players[c].cards, j)
         == (if k == j then Max(Count(b.players[c].cards, j) - 1, 0) else Count(b.players[c].cards, j))
      && r.players == b.players[c := r.players[c]]
      && r.players[c].name == b.players[c].name && r.players[c].devCards == b.players[c].devCards
      && PlayerValid(r.players[c])
  {
  }

  /**
   * The supply of a kind grows by exactly the part of the payment the
   * player could not cover: it is conserved when the player held at least
   * as many as listed, and over-credited otherwise.
   */
  lemma ReturnCardsSupply(b: Books, c: int, ks: seq<Kind>, j: int)
    requires c in b.players && PlayerValid(b.players[c])
    ensures Supply(ReturnCards(b, c, ks), j)
            == Supply(b, j) + Max(multiset(ks)[j] - Count(b.players[c].cards, j), 0)
  {
    ReturnCardsEffect(b, c, ks, j);
    HeldUpdate(b.players, c, ReturnCards(b, c, ks).players[c], j);
  }

  /** Discarding two bricks while holding one: the player ends with none, the bank gains two. */
  lemma DiscardOverCredits(b: Books)
    requires 3 in b.players && PlayerValid(b.players[3]) && Count(b.players[3].cards, 2) == 1
    ensures Count(ReturnCards(b, 3, [2, 2]).players[3].cards, 2) == 0
    ensures Count(ReturnCards(b, 3, [2, 2]).bank, 2) == Count(b.bank, 2) + 2
    ensures Supply(ReturnCards(b, 3, [2, 2]), 2) == Supply(b, 2) + 1
  {
    var ks: seq<Kind> := [2, 2];
    assert multiset(ks)[2] == 2;
    ReturnCardsEffect(b, 3, [2, 2], 2);
    ReturnCardsSupply(b, 3, [2, 2], 2);
  }

  /** A grant followed by the owner spending that card to the bank restores every count. */
  lemma GrantThenSpendRestores(b: Books, c: int, k: Kind, j: int)
    requires c in b.players && c != BankColor && PlayerValid(b.players[c])
    ensures var r := Spend(GrantOne(b, Grant(c, k)), c, [k], BankColor);
      && Count(r.players[c].cards, j) == Count(b.players[c].cards, j)
      && Count(r.bank, j) == Count(b.bank, j)
  {
    var g := GrantOne(b, Grant(c, k));
    assert [k][..0] == [];
    ReturnCardsEffect(g, c, [k], j);
  }

  // ---------------------------------------------------------------------
  // Trade
  // ---------------------------------------------------------------------

  /** Moving `ks` from one player to another: the giver loses them (stopping at zero), the taker gains them all. */
  lemma {:induction false} TransferAllEffect(players: map<int, Player>, from: int, to: int, ks: seq<Kind>, j: int)
    requires from in players && to in players && from != to
    requires PlayerValid(players[from])
    ensures var r := TransferAll(players, from, to, ks);
      && Count(r[from].cards, j) == Max(Count(players[from].cards, j) - multiset(ks)[j], 0)
      && Count(r[to].cards, j) == Count(players[to].cards, j) + multiset(ks)[j]
      && r == players[from := r[from]][to := r[to]]
      && r[from].name == players[from].name && r[from].devCards == players[from].devCards
      && r[to].name == players[to].name && r[to].devCards == players[to].devCards
    decreases |ks|
  {
    if ks != [] {
      var n := |ks| - 1;
      var k := ks[n];
      assert ks == ks[..n] + [k];
      TransferAllEffect(players, from, to, ks[..n], j);
      TransferAllEffect(players, from, to, ks[..n], k);
    }
  }

  /**
   * A trade between two players leaves the bank alone; each given card
   * leaves the initiator (clamped) for the acceptor and each received card
   * comes back the other way.
   */
  lemma TradeEffect(b: Books, a: int, c: int, given: seq<Kind>, received: seq<Kind>, j: int)
    requires a != c && a in b.players && c in b.players && Valid(b)
    ensures var r := Trade(b, a, c, given, received);
      && r.bank == b.bank
      && Count(r.players[a].cards, j)
         == Max(Count(b.players[a].cards, j) - multiset(given)[j], 0) + multiset(received)[j]
      && Count(r.players[c].cards, j)
         == Max(Count(b.players[c].cards, j) + multiset(given)[j] - multiset(received)[j], 0)
      && r.players == b.players[a := r.players[a]][c := r.players[c]]
      && r.players[a].name == b.players[a].name && r.players[a].devCards == b.players[a].devCards
      && r.players[c].name == b.players[c].name && r.players[c].devCards == b.players[c].devCards
  {
    var mid := TransferAll(b.players, a, c, given);
    TransferAllEffect(b.players, a, c, given, j);
    assert AllPlayersValid(mid);
    TransferAllEffect(mid, c, a, received, j);
  }

  /**
   * A trade inflates a kind's supply by exactly what each side gave
   * without being recorded as holding it: the initiator's shortfall on
   * the given cards, then the acceptor's shortfall on the received cards
   * after receiving the given ones. It is conserved when both held enough.
   */
  lemma TradeSupply(b: Books, a: int, c: int, given: seq<Kind>, received: seq<Kind>, j: int)
    requires a != c && a in b.players && c in b.players && Valid(b)
    ensures Supply(Trade(b, a, c, given, received), j)
            == Supply(b, j)
               + Max(multiset(given)[j] - Count(b.players[a].cards, j), 0)
               + Max(multiset(received)[j] - Count(b.players[c].cards, j) - multiset(given)[j], 0)
  {
    var r := Trade(b, a, c, given, received);
    TradeEffect(b, a, c, given, received, j);
    var mid := b.players[a := r.players[a]];
    HeldUpdate(b.players, a, r.players[a], j);
    HeldUpdate(mid, c, r.players[c], j);
  }

  /** One Ore for one Wheat between two players who hold them: each count moves by exactly one. */
  lemma TradeOreForWheat(b: Books, a: int, c: int)
    requires a != c && a in b.players && c in b.players && Valid(b)
    requires Count(b.players[a].cards, 5) >= 1 && Count(b.players[c].cards, 4) >= 1
    ensures var r := Trade(b, a, c, [5], [4]);
      && r.bank == b.bank
      && Count(r.players[a].cards, 5) == Count(b.players[a].cards, 5) - 1
      && Count(r.players[a].cards, 4) == Count(b.players[a].cards, 4) + 1
      && Count(r.players[c].cards, 5) == Count(b.players[c].cards, 5) + 1
      && Count(r.players[c].cards, 4) == Count(b.players[c].cards, 4) - 1
  {
    TradeEffect(b, a, c, [5], [4], 4);
    TradeEffect(b, a, c, [5], [4], 5);
  }

  // ---------------------------------------------------------------------
  // Robber steal
  // ---------------------------------------------------------------------

  /**
   * When the victim holds a card, exactly one card of the smallest kind id
   * with a positive count moves from victim to thief; nobody else and not
   * the bank is touched.
   */
  lemma StealTakesFirstPositive(b: Books, thief: int, victim: int, k: int, j: int)
    requires Valid(b) && thief in b.players && victim in b.players && thief != victim
    requires IsFirstPositive(b.players[victim].cards, k)
    ensures var r := Steal(b, thief, victim);
      && r.bank == b.bank
      && Count(r.players[victim].cards, j) == Count(b.players[victim].cards, j) - (if j == k then 1 else 0)
      && Count(r.players[thief].cards, j) == Count(b.players[thief].cards, j) + (if j == k then 1 else 0)
      && r.players == b.players[victim := r.players[victim]][thief := r.players[thief]]
      && r.players[victim].name == b.players[victim].name
      && r.players[victim].devCards == b.players[victim].devCards
      && r.players[thief].name == b.players[thief].name
      && r.players[thief].devCards == b.players[thief].devCards
  {
    var cards := b.players[victim].cards;
    SumValuesPositive(cards, k);
    var f := FirstPositive(cards);
    assert f.Some? && IsFirstPositive(cards, f.value);
    assert f.value == k;
  }

  /** The robber changes nothing exactly when the victim holds no card. */
  lemma StealNoOpIffEmptyHanded(b: Books, thief: int, victim: int)
    requires Valid(b) && thief in b.players && victim in b.players && thief != victim
    ensures Steal(b, thief, victim) == b
            <==> forall k :: k in b.players[victim].cards ==> b.players[victim].cards[k] == 0
  {
    var cards := b.players[victim].cards;
    var f := FirstPositive(cards);
    if f.Some? {
      var k := f.value;
      StealTakesFirstPositive(b, thief, victim, k, k);
      assert Count(Steal(b, thief, victim).players[victim].cards, k) != Count(cards, k);
    }
  }

  /** A player robbing themself takes a card and gives it straight back: no count changes. */
  lemma StealFromSelfKeepsCounts(b: Books, c: int, j: int)
    requires Valid(b) && c in b.players
    ensures Steal(b, c, c).bank == b.bank
    ensures Count(Steal(b, c, c).players[c].cards, j) == Count(b.players[c].cards, j)
  {
  }

  /** The steal moves a card between hands, so no kind's supply changes. */
  lemma StealConserves(b: Books, thief: int, victim: int, j: int)
    requires thief in b.players && victim in b.players
    ensures Supply(Steal(b, thief, victim), j) == Supply(b, j)
  {
    var cards := b.players[victim].cards;
    if SumValues(cards) > 0 && FirstPositive(cards).Some? {
      var k := FirstPositive(cards).value;
      var robbed := b.players[victim := b.players[victim].(cards := cards[k := cards[k] - 1])];
      HeldUpdate(b.players, victim, robbed[victim], j);
      HeldUpdate(robbed, thief, Credit(robbed[thief], k), j);
    }
  }

  // ---------------------------------------------------------------------
  // Development-card play
  // ---------------------------------------------------------------------

  /** Playing a development card touches only the player's development-card count. */
  lemma DevCardPlayKeepsResources(b: Books, c: int, j: int)
    requires Valid(b) && c in b.players
    ensures Supply(PlayDevCard(b, c), j) == Supply(b, j)
    ensures PlayDevCard(b, c).players[c].devCards == Max(b.players[c].devCards - 1, 0)
  {
    HeldUpdate(b.players, c, PlayDevCard(b, c).players[c], j);
  }
}
