# Catan card counter: the reconciliation ledger

`card_counter.js` is a browser user script for colonist.io. It listens to
the game's WebSocket and keeps a running estimate of two things:
- how many resource cards of each kind (1 Wood, 2 Brick, 3 Sheep, 4 Wheat,
  5 Ore) every player colour holds, plus each player's count of
  development cards;
- how many of each kind remain in the bank, which starts at 19 per kind.

It updates the estimate from the events the server sends:
- type 4, roster-init;
- type 91, state diff, with its embedded game log;
- type 28, resource grant;
- type 43, spend to the bank.

It shows the result in an overlay.

This project models that ledger and the handlers that keep it up to date.

- `model.dfy` (module `Model`): the ledger's entities.
  - A `Player` entry has a name, a resource map and a development-card count.
  - A `Books` value is the pair of the `players` and `bank` maps.
  - The decoded events are datatypes: the message, its `data` with type tag
    and payload, the state diff, and the game-log entries.
  - The event tags and the starting supply are constants.
  - A resource id carried by an event has type `Kind` (1 to 5).
- `reconcile.dfy` (module `Reconcile`): one function per handler. Each maps
  the ledger before an event to the ledger after it.
  - The router is `Process`.
  - The log sub-dispatcher is `ApplyLog` and `ApplyLogs`.
  - These functions specify the class in `ledger.dfy`.
  - Each carries the ledger invariant `Valid`: no player count is negative,
    and the bank has all five kinds.
- `ledger.dfy` (module `CardCounter`): the script's two closure variables
  as the fields of a `Ledger` object, plus a redraw counter.
  - There is one method per handler. Each updates the fields card by card
    in loops, as the script does.
  - Each method is proved to leave `Snapshot()` exactly where the matching
    `Reconcile` function puts it.
- `properties.dfy` (module `Properties`): lemmas stating what the handlers
  guarantee.
  - How many cards each event moves between hands and the bank.
  - When the supply of a kind (bank plus all hands) is conserved, and by
    exactly how much a clamped decrement inflates it.
  - The robber policy.
  - The replace semantics of roster-init and of the state diff.
- `sums.dfy` and `wrappers.dfy`: an order-free sum over a map's values,
  and `Option`.

How the model treats the script:
- Decrements: the script writes `(x || 1) - 1`. The model keeps that form
  in `Decremented` and proves it equals `max(x - 1, 0)` on non-negative
  counts.
- Unguarded lookups: when the script reads `players[c]` for a colour that
  may be missing, the JavaScript throws. The model turns each such lookup
  into a precondition that the colour is known. It asks for the colour
  only when the script actually reads it; for example, a trade or discard
  with empty card lists reads nothing.
- Guarded lookups: the grant and spend handlers check `if (players[c])`,
  and they skip unknown colours exactly as the script does.
- Log order: game-log entries are applied in ascending entry id, which is
  the order `for…in` gives integer keys.
- Key-set loops: the script iterates over `playerStates` and over the
  bank diff with `for…in`. The model picks those keys in an arbitrary
  order; each key is handled independently, so the result is the same for
  every order.

What the code does, where one might expect otherwise:
- Unknown colours: an update naming a colour missing from `players` is
  not skipped. The diff, trade, discard, steal and dev-card handlers throw
  on it, so those lookups become preconditions.
- Conservation: grants, spends, trades and discards might be expected to
  conserve each kind's supply (bank plus all hands). The clamped decrement
  breaks this whenever a player gives away a card they are not recorded
  as holding.
  - For payments to the bank, `ReturnCardsSupply` proves the exact
    over-credit, and `DiscardOverCredits` exhibits it.
  - For trades, `TradeSupply` proves the exact over-credit.
- Robber steal: a steal might be expected to make supply drift, since the
  stolen kind is a guess. The code moves one card between two hands, and
  `StealConserves` proves that supply is preserved exactly.

## Model

| member | source | states |
|---|---|---|
| CardCounter.Ledger.constructor | card_counter.js:14-15 | a fresh ledger has no players, 19 of each kind in the bank, and satisfies the invariant |
| Reconcile.Initial | card_counter.js:14-15 | the starting ledger is valid, has no players and holds `StartingSupply` (19) of every kind |
| CardCounter.Ledger.HandleMessage | card_counter.js:62-80 | the fields end where `Process` puts them, and the redraw counter goes up by exactly one whatever the tag |
| Reconcile.Process | card_counter.js:69-77 | routing on tags 4, 91, 28 and 43 keeps the ledger invariant |
| Properties.IgnoredMessageChangesNothing | card_counter.js:69-77 | a message without `data`, or with any other tag, leaves the ledger unchanged |
| Properties.ProcessKeepsCountsNonNegative | card_counter.js:62-80 | after any handled message, no player's resource or development-card count is negative, and the bank still has all five kinds |
| CardCounter.Ledger.InitializePlayers | card_counter.js:82-93 | the roster loop leaves `players` equal to `InitPlayers`, keeps the bank and keeps the invariant |
| Reconcile.Roster | card_counter.js:84-91 | the roster's colours are exactly the listed `selectedColor`s, each with no cards and 0 development cards |
| Reconcile.InitPlayers | card_counter.js:82-93 | roster-init never changes the bank and keeps the invariant |
| Properties.RosterNames | card_counter.js:85-91 | each colour's name is the username of the last roster entry with that colour |
| Properties.RosterInitReplaces | card_counter.js:82-93 | roster-init replaces `players` wholesale: exactly the listed colours, fresh entries, last entry's name, bank untouched; nothing changes without `playerUserStates` |
| CardCounter.Ledger.HandleGameStateUpdate | card_counter.js:95-120 | player states, bank state and game log applied in that order leave the ledger at `StateUpdate` |
| Reconcile.ApplyDiff | card_counter.js:95-120 | a state diff keeps the set of colours and the invariant |
| Reconcile.StateUpdate | card_counter.js:95-120 | a missing diff leaves the ledger unchanged; a present one keeps the colours and the invariant |
| CardCounter.Ledger.HandlePlayerStates | card_counter.js:96-111 | visiting the `playerStates` keys in any order gives `ApplyPlayerStates` and keeps the invariant |
| Reconcile.ApplyPlayerStates | card_counter.js:96-111 | the per-colour replacement keeps the set of colours and non-negative counts |
| CardCounter.CardsFromArray | card_counter.js:100-105 | the array loop builds exactly `CardsFromCounts` of the count array |
| Reconcile.CardsFromCounts | card_counter.js:100-105 | kind i+1 is present iff `0 <= i < length` and count i is positive, and then holds that count |
| Properties.PlayerStateReplaces | card_counter.js:97-110 | a resource array replaces the old cards with exactly its positive counts; a development array sets the count to its length; absent fields and the name are kept |
| Properties.PlayerStatesKeepOthers | card_counter.js:97-110 | a colour not named in `playerStates` keeps its entry |
| CardCounter.Ledger.HandleBankState | card_counter.js:112-116 | the bank loop leaves the bank equal to `OverwriteBank` |
| Reconcile.OverwriteBank | card_counter.js:112-116 | listed kinds take the listed value, unlisted kinds keep theirs, and no other key appears |
| Properties.BankStateIdempotent | card_counter.js:112-116 | the bank diff is absolute: applying it twice equals applying it once |
| CardCounter.Ledger.HandleResourceDistribution | card_counter.js:122-131 | the grant loop leaves the ledger at `Distribute` and keeps the invariant |
| Reconcile.GrantOne | card_counter.js:123-130 | one grant keeps the colours and the invariant |
| Reconcile.Distribute | card_counter.js:122-131 | grants in list order keep the colours and the invariant |
| Properties.GrantOneEffect | card_counter.js:124-129 | a grant to a known owner moves exactly one card of its kind from bank to owner, keeps the owner's name and development cards, and touches no other player; a grant to an unknown owner is dropped |
| Properties.GrantOneConserves | card_counter.js:126-129 | one grant preserves every kind's supply |
| Properties.DistributeConserves | card_counter.js:122-131 | a grant message of any length preserves every kind's supply |
| Properties.RosterThenGrantsTotalStartingSupply | card_counter.js:14-15 | from the start, after a roster-init and any grants, each kind's bank-plus-hands total is 19 |
| CardCounter.Ledger.HandleResourceSpending | card_counter.js:133-143 | the spend loop leaves the ledger at `Spend` and keeps the invariant |
| Reconcile.Spend | card_counter.js:133-143 | a spend that is not a known non-bank player paying the bank (colour 0) leaves the ledger unchanged; every spend keeps the colours and the invariant |
| Reconcile.ReturnCards | card_counter.js:136-141 | paying a card list to the bank keeps the colours and the invariant |
| Reconcile.PayBank | card_counter.js:137-140 | paying one card keeps the colours and the invariant |
| Properties.PayBankEffect | card_counter.js:137-140 | one paid card: the bank gains exactly one of its kind; the player loses one unless they hold none and keeps their name and development cards; nobody else changes |
| Reconcile.Decremented | card_counter.js:138 | the decrement that reads a missing count as 1 equals `max(x - 1, 0)` on every non-negative or missing count |
| Reconcile.Debit | card_counter.js:138 | the kind's count drops by one and stops at zero; other kinds, the name and the development cards are kept |
| Reconcile.Credit | card_counter.js:127 | the kind's count (missing reads as 0) rises by one; everything else is kept |
| Properties.ReturnCardsEffect | card_counter.js:136-141 | paying a list to the bank: the bank gains its multiplicity of each kind; the player loses the same number but stops at zero and keeps their name and development cards; no other player changes |
| Properties.ReturnCardsSupply | card_counter.js:136-141 | a payment inflates a kind's supply by exactly `max(paid - held, 0)`, so supply is conserved iff the player held what they paid |
| Properties.DiscardOverCredits | card_counter.js:174-177 | discarding two bricks while holding one leaves 0 bricks, adds 2 to the bank, and raises the brick supply by 1 |
| Properties.GrantThenSpendRestores | card_counter.js:122-143 | granting a card and then spending that card to the bank restores every count |
| CardCounter.Ledger.HandleGameLogUpdates | card_counter.js:145-158 | entries dispatched in ascending id order leave the ledger at `ApplyLogs` and keep the invariant |
| Reconcile.ApplyLog | card_counter.js:146-157 | one log entry is dispatched on tags 115, 55, 16 and 20; an entry with any other tag leaves the ledger unchanged; every entry keeps the colours and the invariant |
| Reconcile.ApplyLogs | card_counter.js:145-158 | the log entries in order keep the colours and the invariant |
| CardCounter.Ledger.HandleTrade | card_counter.js:160-170 | the two trade loops leave the ledger at `Trade` |
| CardCounter.Ledger.TransferCards | card_counter.js:162-165 | one card loop leaves `players` at `TransferAll` |
| Reconcile.TransferAll | card_counter.js:162-169 | moving cards between two players keeps the colours and non-negative counts |
| Reconcile.Trade | card_counter.js:160-170 | a trade never touches the bank and keeps the colours and the invariant |
| Properties.TransferAllEffect | card_counter.js:162-165 | the giver loses each listed card (stopping at zero), the taker gains all of them, both keep their name and development cards, and no one else changes |
| Properties.TradeEffect | card_counter.js:160-170 | per kind, the initiator ends at `max(held - given, 0) + received` and the acceptor at `max(held + given - received, 0)`; both traders keep their name and development cards; the bank and other players are unchanged |
| Properties.TradeSupply | card_counter.js:160-170 | a trade inflates a kind's supply by exactly the initiator's shortfall on the given cards plus the acceptor's shortfall on the received cards; it is conserved when both held enough |
| Properties.TradeOreForWheat | card_counter.js:160-170 | one Ore for one Wheat between holders moves each count by exactly one |
| CardCounter.Ledger.HandleDiscard | card_counter.js:172-178 | the discard loop leaves the ledger at `ReturnCards` and keeps the invariant |
| CardCounter.Ledger.HandleRobberSteal | card_counter.js:180-193 | the steal computes the victim's total and first positive kind and leaves the ledger at `Steal` |
| CardCounter.TotalCount | card_counter.js:185 | the `reduce` loop returns the sum of all the victim's counts |
| CardCounter.FirstPositiveKind | card_counter.js:187 | the `find` loop returns the smallest key with a positive count, or none iff no count is positive |
| Reconcile.FirstPositive | card_counter.js:187 | none iff no count is positive; otherwise the smallest key with a positive count |
| Reconcile.Steal | card_counter.js:180-193 | a steal never touches the bank and keeps the colours and the invariant |
| Properties.StealTakesFirstPositive | card_counter.js:184-191 | when the victim holds a card, exactly one card of the smallest positive kind moves from victim to thief, both keep their name and development cards, and nothing else changes |
| Properties.StealNoOpIffEmptyHanded | card_counter.js:185-192 | the steal leaves the ledger unchanged iff every count the victim holds is zero |
| Properties.StealFromSelfKeepsCounts | card_counter.js:184-191 | a player robbing themself ends with every count and the bank as before |
| Properties.StealConserves | card_counter.js:180-193 | a steal preserves every kind's supply |
| CardCounter.Ledger.HandleDevCardPlay | card_counter.js:195-203 | the player's development-card count is updated as `PlayDevCard` says; the card played changes nothing else |
| Reconcile.PlayDevCard | card_counter.js:195-203 | the count becomes `max(count - 1, 0)`; the player's name and cards, the bank and every other player are kept |
| Properties.DevCardPlayKeepsResources | card_counter.js:195-203 | playing a development card preserves every kind's supply and decrements the development cards, clamped at zero |

## Left out

- Decoding and logging: the msgpack decoding of the WebSocket frame and the
  `console.log` of the decoded message. A message reaches `HandleMessage`
  already decoded.
- Rendering: `createUI` and `updateUI`, which build the overlay's HTML.
  - The model keeps only the number of redraws (`renders`).
  - The constructor does not count the initial redraw done by `createUI`.
  - The colour and resource display names exist only for rendering and
    are left out.
- WebSocket hook: the override of `window.WebSocket` that attaches the
  handler (card_counter.js:205-210) is left out, because it is browser I/O.
- websocket_logger.js is not part of this model.
- Malformed payloads (the `Shaped` precondition): a message whose payload
  does not have the shape its tag names is outside the model.
  - In the script, a missing or null payload throws for all four tags:
    reading `playerUserStates`, reading `diff`, destructuring the spend,
    or calling `forEach` on the grant list.
  - A spend from a player to the bank without `givingCards` also throws.
  - A payload object without the fields its handler reads makes tags 4,
    91 and 43 do nothing (43 throws only in the case above), and makes
    tag 28 throw.
- Resource ids: the ids carried by grants, spends, trades and discards are
  limited to 1..5.
  - For grants, spends and discards, the script would write `NaN` into
    the bank for any other id.
  - Trades never touch the bank; there, another id would only add a key to
    the traders' card maps.
- Keys: map keys are integers. The script's object keys are strings, and
  `for…in` visits them in ascending order only because they are small
  integers.
- Numbers: counts are unbounded integers. JavaScript numbers are doubles;
  their rounding above 2^53 is not modelled.
- Unknown colours and exceptions: where the script throws on an unknown
  colour (a state diff entry, trade, discard, steal or dev-card play), the
  model requires the colour to be known.
  - It therefore does not model the partial update left behind when a
    handler throws part-way.
  - It also does not model the skipped redraw that follows the exception.
- Aliasing and order: players are values in a map, so two entries can
  never share a card map.
  - The bank and player diffs are applied in an arbitrary key order. The
    result does not depend on that order.
- Reconcile.Steal: requires the thief to be known even when the victim
  holds nothing. The script reads the thief only when a card actually
  moves.
- CardCounter.Ledger.HandleRobberSteal: has the same precondition on the
  thief as `Reconcile.Steal`, for the same reason.
