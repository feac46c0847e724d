/**
 * The data of the card counter: the ledger it keeps (players and bank) and
 * the already-decoded game messages it reads. Field names follow the
 * fields the game server sends.
 */
module Model {
  import opened Wrappers

  /** A resource kind as the server numbers it: 1 Wood, 2 Brick, 3 Sheep, 4 Wheat, 5 Ore. */
  type Kind = k: int | 1 <= k <= 5 witness 1

  /** The bank's supply of every kind before any message arrives. */
  const StartingSupply: int := 19

  /** The colour id that stands for the bank in a spend message. */
  const BankColor: int := 0

  /** The type tags the router recognises. */
  const RosterTag: int := 4
  const StateDiffTag: int := 91
  const GrantTag: int := 28
  const SpendTag: int := 43

  /** The type tags of game-log entries the log dispatcher recognises. */
  const TradeTag: int := 115
  const DiscardTag: int := 55
  const StealTag: int := 16
  const DevCardTag: int := 20

  /** The development cards whose resource effects arrive as later messages. */
  const Monopoly: int := 13
  const YearOfPlenty: int := 14

  /**
   * One entry of `players`: a display name, a count per resource kind (an
   * absent key reads as 0) and the number of development cards held.
   */
  datatype Player = Player(name: string, cards: map<int, int>, devCards: int)

  /** The whole ledger: `players` by colour id and `bank` by resource kind. */
  datatype Books = Books(players: map<int, Player>, bank: map<int, int>)

  // ---- roster-init (type 4) ----
  datatype UserState = UserState(username: string, selectedColor: int)

  // ---- resource grant (type 28) ----
  datatype Grant = Grant(owner: int, card: Kind)

  // ---- state diff (type 91) ----
  /** `resourceCards.cards` is an array of counts indexed by kind - 1; only the length of `developmentCards.cards` matters. */
  datatype PlayerState = PlayerState(resourceCards: Option<seq<int>>, developmentCards: Option<seq<int>>)

  datatype LogBody =
    | TradeLog(playerColor: int, acceptingPlayerColor: int, givenCardEnums: seq<Kind>, receivedCardEnums: seq<Kind>)
    | DiscardLog(playerColor: int, cardEnums: seq<Kind>)
    | StealLog(playerColorThief: int, playerColorVictim: int)
    | DevCardLog(playerColor: int, cardEnum: int)
    | OtherLog

  /** The `text` of one game-log entry: its type tag and its fields. */
  datatype Log = Log(tag: int, body: LogBody)

  /**
   * The `diff` of a state update. `bankResourceCards` stands for
   * `bankState.resourceCards`; `gameLogState` holds the log entries in
   * ascending id order, the order a `for...in` loop visits them.
   */
  datatype Diff = Diff(
    playerStates: Option<map<int, PlayerState>>,
    bankResourceCards: Option<map<int, int>>,
    gameLogState: Option<seq<Log>>)

  // ---- the message envelope ----
  datatype Payload =
    | RosterPayload(playerUserStates: Option<seq<UserState>>)
    | StatePayload(diff: Option<Diff>)
    | GrantPayload(distributions: seq<Grant>)
    | SpendPayload(givingPlayer: int, givingCards: seq<Kind>, receivingPlayer: int)
    | OtherPayload

  /** `decodedData.data`: a type tag and a payload. */
  datatype Data = Data(tag: int, payload: Payload)

  /** A decoded message; `data` is absent when decoding produced none. */
  datatype Message = Message(data: Option<Data>)
}
