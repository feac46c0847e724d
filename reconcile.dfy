/**
 * What each handler of the card counter does to the ledger, as functions
 * from the ledger before a message to the ledger after it. The class in
 * ledger.dfy is proved to update its fields exactly as these say; the
 * lemmas in properties.dfy say what these functions guarantee.
 */
module Reconcile {
  import opened Wrappers
  import opened Model
  import opened Sums

  function Max(a: int, b: int): int { if a >= b then a else b }

  /** A count read with `|| 0`: an absent kind counts as none. */
  function Count(cards: map<int, int>, k: int): int
  {
    if k in cards then cards[k] else 0
  }

  /**
   * The decrement `(cards[k] || 1) - 1`: a missing or zero count becomes 0,
   * anything else goes down by one. On a count that is not negative it is
   * the decrement clamped at zero.
   */
  function Decremented(cards: map<int, int>, k: int): (n: int)
    ensures Count(cards, k) >= 0 ==> n == Max(Count(cards, k) - 1, 0)
  {
    if k in cards && cards[k] != 0 then cards[k] - 1 else 0
  }

  // ---------------------------------------------------------------------
  // The ledger invariant
  // ---------------------------------------------------------------------

  /** No resource count and no development-card count is negative. */
  ghost predicate PlayerValid(p: Player)
  {
    p.devCards >= 0 && forall k :: k in p.cards ==> p.cards[k] >= 0
  }

  ghost predicate AllPlayersValid(players: map<int, Player>)
  {
    forall c :: c in players ==> PlayerValid(players[c])
  }

  /** Every player is valid and the bank has an entry for every resource kind. */
  ghost predicate Valid(b: Books)
  {
    && (forall k: Kind :: k in b.bank)
    && AllPlayersValid(b.players)
  }

  /** The ledger when the script starts: no players, 19 of each kind in the bank. */
  function Initial(): (b: Books)
    ensures Valid(b)
    ensures b.players == map[]
    ensures forall k: Kind :: b.bank[k] == StartingSupply
  {
    Books(map[], map[1 := StartingSupply, 2 := StartingSupply, 3 := StartingSupply,
                     4 := StartingSupply, 5 := StartingSupply])
  }

  // ---------------------------------------------------------------------
  // One card in, one card out
  // ---------------------------------------------------------------------

  /** `cards[k] = (cards[k] || 0) + 1`. */
  function Credit(p: Player, k: int): (r: Player)
    ensures r.name == p.name && r.devCards == p.devCards
    ensures Count(r.cards, k) == Count(p.cards, k) + 1
    ensures forall j :: j != k ==> Count(r.cards, j) == Count(p.cards, j)
    ensures PlayerValid(p) ==> PlayerValid(r)
  {
    p.(cards := p.cards[k := Count(p.cards, k) + 1])
  }

  /** `cards[k] = (cards[k] || 1) - 1`: the count drops by one, never below zero. */
  function Debit(p: Player, k: int): (r: Player)
    ensures r.name == p.name && r.devCards == p.devCards
    ensures k in r.cards
    ensures Count(p.cards, k) >= 0 ==> r.cards[k] == Max(Count(p.cards, k) - 1, 0)
    ensures forall j :: j != k ==> Count(r.cards, j) == Count(p.cards, j)
    ensures PlayerValid(p) ==> PlayerValid(r)
  {
    p.(cards := p.cards[k := Decremented(p.cards, k)])
  }

  // ---------------------------------------------------------------------
  // Router
  // ---------------------------------------------------------------------

  datatype Route = ToRoster | ToStateDiff | ToGrant | ToSpend | Ignore

  /** The branch of `handleMessage` a type tag selects. */
  function RouteOf(tag: int): Route
  {
    if tag == RosterTag then ToRoster
    else if tag == StateDiffTag then ToStateDiff
    else if tag == GrantTag then ToGrant
    else if tag == SpendTag then ToSpend
    else Ignore
  }

  /** The decoder hands each recognised tag the payload shape its handler reads. */
  predicate Shaped(d: Data)
  {
    match RouteOf(d.tag)
    case ToRoster => d.payload.RosterPayload?
    case ToStateDiff => d.payload.StatePayload?
    case ToGrant => d.payload.GrantPayload?
    case ToSpend => d.payload.SpendPayload?
    case Ignore => true
  }

  /**
   * A message the script handles without throwing: a shaped payload, and a
   * state diff that only names colours the ledger knows.
   */
  predicate MessageDefined(colors: set<int>, m: Message)
  {
    m.data.Some? ==>
      && Shaped(m.data.value)
      && (RouteOf(m.data.value.tag) == ToStateDiff && m.data.value.payload.StatePayload?
          && m.data.value.payload.diff.Some?
          ==> DiffDefined(colors, m.data.value.payload.diff.value))
  }

  /** `handleMessage` without decoding and rendering. */
  ghost function Process(b: Books, m: Message): (r: Books)
    requires MessageDefined(b.players.Keys, m)
    ensures Valid(b) ==> Valid(r)
  {
    if m.data.None? then b
    else
      var d := m.data.value;
      match RouteOf(d.tag)
      case ToRoster => InitPlayers(b, d.payload.playerUserStates)
      case ToStateDiff => StateUpdate(b, d.payload.diff)
      case ToGrant => Distribute(b, d.payload.distributions)
      case ToSpend => Spend(b, d.payload.givingPlayer, d.payload.givingCards, d.payload.receivingPlayer)
      case Ignore => b
  }

  // ---------------------------------------------------------------------
  // Roster-init (type 4)
  // ---------------------------------------------------------------------

  function NewPlayer(name: string): Player
  {
    Player(name, map[], 0)
  }

  /** The `players` object built by the roster loop; a later entry for a colour overwrites an earlier one. */
  function Roster(users: seq<UserState>): (r: map<int, Player>)
    ensures r.Keys == set u | u in users :: u.selectedColor
    ensures forall c :: c in r ==> r[c].cards == map[] && r[c].devCards == 0
    decreases |users|
  {
    if users == [] then map[]
    else
      var n := |users| - 1;
      assert users == users[..n] + [users[n]];
      Roster(users[..n])[users[n].selectedColor := NewPlayer(users[n].username)]
  }

  function InitPlayers(b: Books, users: Option<seq<UserState>>): (r: Books)
    ensures r.bank == b.bank
    ensures Valid(b) ==> Valid(r)
  {
    if users.Some? then Books(Roster(users.value), b.bank) else b
  }

  // ---------------------------------------------------------------------
  // State diff (type 91)
  // ---------------------------------------------------------------------

  /** The card map rebuilt from a count array: kind i + 1 is present exactly when the count at i is positive. */
  function CardsFromCounts(counts: seq<int>): (cards: map<int, int>)
    ensures forall k :: k in cards <==> 1 <= k <= |counts| && counts[k - 1] > 0
    ensures forall k :: k in cards ==> cards[k] == counts[k - 1]
    decreases |counts|
  {
    if counts == [] then map[]
    else
      var n := |counts| - 1;
      var cards := CardsFromCounts(counts[..n]);
      if counts[n] > 0 then cards[n + 1 := counts[n]] else cards
  }

  /** An entry of `playerStates` that makes the handler index `players`. */
  predicate Touches(s: PlayerState)
  {
    s.resourceCards.Some? || s.developmentCards.Some?
  }

  function ApplyPlayerState(p: Player, s: PlayerState): (r: Player)
    ensures r.name == p.name
    ensures PlayerValid(p) ==> PlayerValid(r)
  {
    var p1 := if s.resourceCards.Some? then p.(cards := CardsFromCounts(s.resourceCards.value)) else p;
    if s.developmentCards.Some? then p1.(devCards := |s.developmentCards.value|) else p1
  }

  function ApplyPlayerStates(players: map<int, Player>, states: map<int, PlayerState>): (r: map<int, Player>)
    ensures r.Keys == players.Keys
    ensures AllPlayersValid(players) ==> AllPlayersValid(r)
  {
    map c | c in players :: if c in states then ApplyPlayerState(players[c], states[c]) else players[c]
  }

  /** Applying one more entry of `playerStates`, the one for colour `c`, updates that colour alone. */
  lemma ApplyPlayerStatesStep(players: map<int, Player>, states: map<int, PlayerState>, todo: set<int>, c: int)
    requires c in todo && todo <= states.Keys
    ensures c in players ==>
      ApplyPlayerStates(players, states - (todo - {c}))
      == ApplyPlayerStates(players, states - todo)[c := ApplyPlayerState(players[c], states[c])]
    ensures c !in players ==>
      ApplyPlayerStates(players, states - (todo - {c})) == ApplyPlayerStates(players, states - todo)
  {
    var after := ApplyPlayerStates(players, states - (todo - {c}));
    var before := ApplyPlayerStates(players, states - todo);
    assert forall d :: d in after && d != c ==> after[d] == before[d];
  }

  /** `bank[k] = listed[k]` for every listed kind; other kinds keep their count. */
  function OverwriteBank(bank: map<int, int>, listed: map<int, int>): (r: map<int, int>)
    ensures r.Keys == bank.Keys + listed.Keys
    ensures forall k :: k in listed ==> r[k] == listed[k]
    ensures forall k :: k in bank && k !in listed ==> r[k] == bank[k]
  {
    bank + listed
  }

  predicate DiffDefined(colors: set<int>, d: Diff)
  {
    && (d.playerStates.Some? ==>
          forall c :: c in d.playerStates.value && Touches(d.playerStates.value[c]) ==> c in colors)
    && (d.gameLogState.Some? ==> LogsDefined(colors, d.gameLogState.value))
  }

  /** `handleGameStateUpdate`: player states, then the bank, then the game log. */
  ghost function ApplyDiff(b: Books, d: Diff): (r: Books)
    requires DiffDefined(b.players.Keys, d)
    ensures r.players.Keys == b.players.Keys
    ensures Valid(b) ==> Valid(r)
  {
    var players := if d.playerStates.Some? then ApplyPlayerStates(b.players, d.playerStates.value) else b.players;
    var bank := if d.bankResourceCards.Some? then OverwriteBank(b.bank, d.bankResourceCards.value) else b.bank;
    var b1 := Books(players, bank);
    if d.gameLogState.Some? then ApplyLogs(b1, d.gameLogState.value) else b1
  }

  ghost function StateUpdate(b: Books, diff: Option<Diff>): (r: Books)
    requires diff.Some? ==> DiffDefined(b.players.Keys, diff.value)
    ensures diff.None? ==> r == b
    ensures r.players.Keys == b.players.Keys
    ensures Valid(b) ==> Valid(r)
  {
    if diff.Some? then ApplyDiff(b, diff.value) else b
  }

  // ---------------------------------------------------------------------
  // Resource grant (type 28)
  // ---------------------------------------------------------------------

  /** One distribution: a known owner gains the card and the bank loses it. */
  function GrantOne(b: Books, g: Grant): (r: Books)
    ensures r.players.Keys == b.players.Keys
    ensures Valid(b) ==> Valid(r)
  {
    if g.owner in b.players then
      Books(b.players[g.owner := Credit(b.players[g.owner], g.card)],
            b.bank[g.card := Count(b.bank, g.card) - 1])
    else b
  }

  function Distribute(b: Books, gs: seq<Grant>): (r: Books)
    ensures r.players.Keys == b.players.Keys
    ensures Valid(b) ==> Valid(r)
    decreases |gs|
  {
    if gs == [] then b
    else
      var n := |gs| - 1;
      GrantOne(Distribute(b, gs[..n]), gs[n])
  }

  // ---------------------------------------------------------------------
  // Resource spend (type 43) and discard (log 55)
  // ---------------------------------------------------------------------

  /** One card from player `c` to the bank: the player is debited (clamped), the bank always credited. */
  function PayBank(b: Books, c: int, k: Kind): (r: Books)
    requires c in b.players
    ensures r.players.Keys == b.players.Keys
    ensures Valid(b) ==> Valid(r)
  {
    Books(b.players[c := Debit(b.players[c], k)], b.bank[k := Count(b.bank, k) + 1])
  }

  /** Every listed card paid to the bank, in list order. */
  function ReturnCards(b: Books, c: int, ks: seq<Kind>): (r: Books)
    requires ks == [] || c in b.players
    ensures r.players.Keys == b.players.Keys
    ensures Valid(b) ==> Valid(r)
    decreases |ks|
  {
    if ks == [] then b
    else
      var n := |ks| - 1;
      PayBank(ReturnCards(b, c, ks[..n]), c, ks[n])
  }

  /** `handleResourceSpending`: only a known player paying the bank counts. */
  function Spend(b: Books, giver: int, ks: seq<Kind>, receiver: int): (r: Books)
    ensures !(giver != BankColor && receiver == BankColor && giver in b.players) ==> r == b
    ensures r.players.Keys == b.players.Keys
    ensures Valid(b) ==> Valid(r)
  {
    if giver != BankColor && receiver == BankColor && giver in b.players then ReturnCards(b, giver, ks)
    else b
  }

  // ---------------------------------------------------------------------
  // Game log (inside a state diff)
  // ---------------------------------------------------------------------

  datatype LogRoute = ToTrade | ToDiscard | ToSteal | ToDevCardPlay | Skip

  /** The branch of `handleGameLogUpdates` a log type selects. */
  function LogRouteOf(tag: int): LogRoute
  {
    if tag == TradeTag then ToTrade
    else if tag == DiscardTag then ToDiscard
    else if tag == StealTag then ToSteal
    else if tag == DevCardTag then ToDevCardPlay
    else Skip
  }

  /**
   * A log entry the handlers process without throwing: its body has the
   * shape of its type, and every colour it makes them index is known.
   */
  predicate LogDefined(colors: set<int>, log: Log)
  {
    match LogRouteOf(log.tag)
    case ToTrade =>
      && log.body.TradeLog?
      && ((log.body.givenCardEnums == [] && log.body.receivedCardEnums == [])
          || (log.body.playerColor in colors && log.body.acceptingPlayerColor in colors))
    case ToDiscard =>
      log.body.DiscardLog? && (log.body.cardEnums == [] || log.body.playerColor in colors)
    case ToSteal =>
      log.body.StealLog? && log.body.playerColorThief in colors && log.body.playerColorVictim in colors
    case ToDevCardPlay =>
      log.body.DevCardLog? && log.body.playerColor in colors
    case Skip => true
  }

  predicate LogsDefined(colors: set<int>, logs: seq<Log>)
  {
    forall i :: 0 <= i < |logs| ==> LogDefined(colors, logs[i])
  }

  /** Each listed card moves from `from` (debited, clamped) to `to` (credited). */
  function TransferAll(players: map<int, Player>, from: int, to: int, ks: seq<Kind>): (r: map<int, Player>)
    requires ks == [] || (from in players && to in players)
    ensures r.Keys == players.Keys
    ensures AllPlayersValid(players) ==> AllPlayersValid(r)
    decreases |ks|
  {
    if ks == [] then players
    else
      var n := |ks| - 1;
      var moved := TransferAll(players, from, to, ks[..n]);
      var debited := moved[from := Debit(moved[from], ks[n])];
      debited[to := Credit(debited[to], ks[n])]
  }

  /** `handleTrade`: the given cards go to the acceptor, then the received cards come back; the bank is not involved. */
  function Trade(b: Books, initiator: int, acceptor: int, given: seq<Kind>, received: seq<Kind>): (r: Books)
    requires (given == [] && received == []) || (initiator in b.players && acceptor in b.players)
    ensures r.bank == b.bank
    ensures r.players.Keys == b.players.Keys
    ensures Valid(b) ==> Valid(r)
  {
    var afterGiven := TransferAll(b.players, initiator, acceptor, given);
    Books(TransferAll(afterGiven, acceptor, initiator, received), b.bank)
  }

  /** `k` is the first key, in ascending order, whose count is positive. */
  ghost predicate IsFirstPositive(cards: map<int, int>, k: int)
  {
    k in cards && cards[k] > 0 && forall j :: j in cards && j < k ==> cards[j] <= 0
  }

  /** `Object.keys(cards).find(k => cards[k] > 0)`, keys visited in ascending order. */
  ghost function FirstPositive(cards: map<int, int>): (r: Option<int>)
    ensures r.None? <==> forall k :: k in cards ==> cards[k] <= 0
    ensures r.Some? ==> IsFirstPositive(cards, r.value)
    decreases cards.Keys
  {
    if cards.Keys == {} then None
    else
      NonEmptyHasElement(cards.Keys);
      var k :| k in cards;
      var rest := FirstPositive(cards - {k});
      assert forall j :: j in cards - {k} <==> j in cards && j != k;
      if cards[k] <= 0 then rest
      else if rest.Some? && rest.value < k then rest
      else Some(k)
  }

  /**
   * `handleRobberSteal`: when the victim's total is positive, one card of
   * the first positive kind moves from the victim to the thief.
   */
  ghost function Steal(b: Books, thief: int, victim: int): (r: Books)
    requires thief in b.players && victim in b.players
    ensures r.bank == b.bank
    ensures r.players.Keys == b.players.Keys
    ensures Valid(b) ==> Valid(r)
  {
    var cards := b.players[victim].cards;
    if SumValues(cards) <= 0 then b
    else
      match FirstPositive(cards)
      case None => b
      case Some(k) =>
        var robbed := b.players[victim := b.players[victim].(cards := cards[k := cards[k] - 1])];
        Books(robbed[thief := Credit(robbed[thief], k)], b.bank)
  }

  /** `handleDevCardPlay`: `devCards = Math.max(0, (devCards || 1) - 1)`; the card played changes nothing else. */
  function PlayDevCard(b: Books, c: int): (r: Books)
    requires c in b.players
    ensures r.bank == b.bank
    ensures r.players.Keys == b.players.Keys
    ensures r.players[c].cards == b.players[c].cards
    ensures r.players[c].name == b.players[c].name
    ensures b.players[c].devCards >= 0 ==> r.players[c].devCards == Max(b.players[c].devCards - 1, 0)
    ensures forall d :: d in b.players && d != c ==> r.players[d] == b.players[d]
    ensures Valid(b) ==> Valid(r)
  {
    var p := b.players[c];
    Books(b.players[c := p.(devCards := Max(0, (if p.devCards != 0 then p.devCards else 1) - 1))], b.bank)
  }

  /** One game-log entry, dispatched on its type; unknown types change nothing. */
  ghost function ApplyLog(b: Books, log: Log): (r: Books)
    requires LogDefined(b.players.Keys, log)
    ensures LogRouteOf(log.tag) == Skip ==> r == b
    ensures r.players.Keys == b.players.Keys
    ensures Valid(b) ==> Valid(r)
  {
    match LogRouteOf(log.tag)
    case ToTrade =>
      Trade(b, log.body.playerColor, log.body.acceptingPlayerColor,
            log.body.givenCardEnums, log.body.receivedCardEnums)
    case ToDiscard => ReturnCards(b, log.body.playerColor, log.body.cardEnums)
    case ToSteal => Steal(b, log.body.playerColorThief, log.body.playerColorVictim)
    case ToDevCardPlay => PlayDevCard(b, log.body.playerColor)
    case Skip => b
  }

  /** `handleGameLogUpdates`: the entries one after another, in ascending id order. */
  ghost function ApplyLogs(b: Books, logs: seq<Log>): (r: Books)
    requires LogsDefined(b.players.Keys, logs)
    ensures r.players.Keys == b.players.Keys
    ensures Valid(b) ==> Valid(r)
    decreases |logs|
  {
    if logs == [] then b
    else
      var n := |logs| - 1;
      ApplyLog(ApplyLogs(b, logs[..n]), logs[n])
  }
}
