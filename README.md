# Bananagrams engine and client stores, in Dafny

This project models the Bananagrams game server's session engine and the
client-side logic around it, and proves what each operation promises.

**The engine** (`backend/game.py`, module `BackendGame`) is a `Game` object that owns:
- a bag of 144 letter tiles, dealt by popping from the end;
- an insertion-ordered dictionary from player id to hand, kept as two aligned sequences;
- a four-phase state machine, IDLE → ACTIVE → ENDGAME → OVER, with OVER → ENDGAME on a false alarm and any phase → IDLE on reset.

Every public method is an imperative method on a class, and its contract gives:
- the exact new state;
- the error raised, in the order the source checks them;
- that the game invariant holds. The invariant says:
  - the bag and all hands together hold exactly the 144 tiles generated last;
  - `tiles_remaining` is the bag's length;
  - hands stay empty until the game starts;
  - the winner's fields are set exactly in OVER.

The earlier revision of the engine (`game.py`, module `LegacyGame`) differs in several ways: it has a HIDDEN phase and a `split` step, no player cap, no rate limit, and its `reset` sets `num_players`. It is modelled alongside.

Both engines share `TileBag`, which covers:
- the letter frequency table and the generation of the bag from it, with its counts proved;
- the player-count tiers of the deal;
- pops from the end of the bag, dealing in turn, and swapping a tile back.

The client side is one module per source file:
- `BoardStore` (`board.ts`): a sparse `"row,col"`-keyed board with moves, bounds and a breadth-first connectivity check.
- `GameLogic` (`useGameLogic.ts`): board validation and word extraction.
- `Validation` (`useValidation.ts`): input rules, an error map and an HTML sanitiser.
- `Helpers` (`static/scripts/ts/helpers.ts`), on a 35×35 grid:
  - the multiset difference of two lists;
  - neighbour cells;
  - the word scan;
  - the depth-first board check.
- `PlayerStore` (`player.ts`): a hand of tiles and a selection.
- `Socket` (`updatePlayerTiles` in `socket.ts`): matching the server's letters to the tiles already held.
- `GameStore` (`game.ts`): merging the server's game state and the views derived from it.
- `Logging` (`logger.ts`): a log queue bounded at 100 entries.
- `DragDrop` (`useDragDrop.ts`): all-or-nothing multi-tile moves.
- `Route` (`route.ts`): reading route parameters.
- `GameReducer` (`game.reducer.ts`): the Angular store reducer.

Shared modules support these:
- `OrderedMaps`: JavaScript objects as key/value lists in the order the keys were created (integer-like keys are not listed first; see "## Left out").
- `Json`: loosely typed JavaScript values and their truthiness.
- `Runs`: maximal runs of letters in a line of cells.
- `Grid`: cells, adjacency and reachability.
- `Text`, `Seqs` and `Decimal`: string and sequence utilities.
- `Wrappers` and `Types`.

How the model represents the source's state:
- **Game fields.** An engine `Game` keeps its mutable attributes in one record field `st`, so each method ends in a single update of that record. The tiles in play are a ghost field.
- **Client stores.** Each store is a class whose fields are its refs.
- **Time.** The clock is an integer number of microseconds passed in by the caller.
- **Randomness.** `random.shuffle` is any permutation of the bag.
- **The word list.** It is a set of strings passed in.

## Model

| member | source | states |
|---|---|---|
| TileBag.ExpandMatchesTable | backend/game.py:8-20 | the letters generated from the frequency table hold each letter exactly as often as the table lists it |
| TileBag.TableSize | backend/game.py:8-20 | the frequency table adds up to 144 tiles |
| TileBag.GenerateTiles | backend/game.py:68-73 | the nested generation loops build a bag of 144 tiles whose per-letter counts equal the table |
| TileBag.Expand | backend/game.py:70-73 | the loops over the table's entries append, for each entry, each letter that many times |
| TileBag.AppendCopies | backend/game.py:72-73 | the innermost loop appends `count` copies of the letter |
| TileBag.FullSetsEqual | backend/game.py:68-74 | any two bags with the table's counts hold the same tiles, so a shuffle loses nothing |
| TileBag.NewBag | backend/game.py:68-74 | the generated bag has 144 tiles with the table's counts |
| TileBag.Shuffle | backend/game.py:74 | the shuffled bag is a permutation of the original |
| TileBag.TilesPerPlayer | backend/game.py:188-196 | 21 tiles each for 2 to 4 players, 15 for 5 or 6, 11 for 7 or 8, none otherwise; every tier leaves a tile in the bag for each player |
| TileBag.NeedIsProduct | backend/game.py:198-200 | dealing `k` tiles to each of `n` players takes `n * k` tiles |
| TileBag.DealTiles | backend/game.py:198-202 | the deal loop pops each player's share off the end of the bag in turn; tiles are conserved |
| TileBag.DealAt | backend/game.py:198-200 | after the deal, player `p`'s hand is its old hand followed by its share of the popped tiles |
| TileBag.PeelRound | backend/game.py:232-234 | a peel pops one tile onto each hand in player order; tiles are conserved |
| TileBag.PoppedSplitsBag | backend/game.py:264-265 | the tiles popped and the tiles left make up the old bag |
| TileBag.SwapCount | backend/game.py:264 | a swap draws three tiles, or every tile left when fewer remain |
| TileBag.SwapTiles | backend/game.py:263-275 | a swap draws the tiles, removes one copy of the letter from the hand and puts it in the bag; tiles are conserved |
| TileBag.ReturnTile | backend/game.py:268-272 | giving back one copy of a held letter moves exactly that tile from the hand to the bag |
| TileBag.SwapInHands | backend/game.py:263-268 | swapping in one player's hand changes no other hand and conserves the hands' tiles plus the bag's |
| TileBag.HandsMultisetUpdate | backend/game.py:198-200 | replacing one hand changes the tiles in all hands by exactly that hand's change |
| TileBag.EmptyHandsHoldNothing | backend/game.py:116-118 | all-empty hands hold no tiles |
| BackendGame.TilesInPlay | backend/game.py:107 | in every valid game, `tiles_remaining` plus the sizes of all hands is 144 |
| BackendGame.MoveTilesKeepsInv | backend/game.py:232-238 | moving tiles between bag and hands without losing any, and possibly entering ENDGAME, keeps the game invariant |
| BackendGame.StartKeepsInv | backend/game.py:176-178 | dealing the tier's share to 2 to 8 players and entering ACTIVE keeps the invariant and leaves a tile per player |
| BackendGame.PeelTooSoonWindows | backend/game.py:219-222 | the rate check rejects a peel exactly when the delta lies in the first second of some whole number of days after the last peel |
| BackendGame.WholeSecondsOf | backend/game.py:221 | the whole seconds of a delta are `t` exactly when the delta lies in `[t, t+1)` seconds |
| BackendGame.PeelTooSoonSamples | backend/game.py:219-222 | 0.9 s and exactly one day after a peel are rejected; 1 s and 1.5 s are not |
| BackendGame.ScoreWords | backend/game.py:302-305 | each winning word is paired, in input order, with whether its upper-cased form is in the word list |
| BackendGame.VerdictIgnoresCase | backend/game.py:304 | two words that differ only in the case of their ASCII letters get the same verdict |
| Text.UpperEqualIff | backend/game.py:304 | upper-casing makes two words equal exactly when they differ only in the case of their ASCII letters |
| BackendGame.Game.constructor | backend/game.py:65-93 | a new game is IDLE with no players, `num_players` unset, no results, and a 144-tile bag with the table's counts |
| BackendGame.Game.Reset | backend/game.py:95-118 | from any phase: IDLE, a fresh 144-tile bag, `num_players` unset, results cleared, the same players with empty hands |
| BackendGame.Game.JoinGame | backend/game.py:145-164 | rejects at 8 players (even a repeat id), then outside IDLE; a repeat id changes nothing; a new id is appended with an empty hand |
| BackendGame.Game.DivyOutTiles | backend/game.py:182-202 | rejects player counts outside 2 to 8 before any tile moves; otherwise deals the tier's share to each player from the end of the bag |
| BackendGame.Game.StartGame | backend/game.py:166-180 | legal only in IDLE; `num_players` is set even when the count is then rejected; otherwise the tiles are dealt and the game is ACTIVE |
| BackendGame.Game.Peel | backend/game.py:204-241 | legal only in ACTIVE; the rate check unless `test`; `last_peel` recorded before the tile check; each player gains the next tile; ENDGAME exactly when fewer tiles than players remain |
| BackendGame.Game.Swap | backend/game.py:243-281 | legal in ACTIVE or ENDGAME for a held letter; the hand grows by min(3, r) − 1, the bag shrinks by as much, the letter goes back into the bag, other hands are unchanged; ENDGAME exactly when fewer tiles than players remain |
| BackendGame.Game.Bananagrams | backend/game.py:283-307 | legal only in ENDGAME; moves to OVER recording the player and the scored words |
| BackendGame.Game.ContinueGame | backend/game.py:309-323 | legal only in OVER; back to ENDGAME with both results cleared, nothing else changed |
| LegacyGame.TilesInPlay | game.py:73 | in every valid game, the bag and the hands hold 144 tiles between them |
| LegacyGame.MoveTilesKeepsInv | game.py:194-200 | moving tiles between bag and hands without losing any keeps the invariant |
| LegacyGame.StartKeepsInv | game.py:137-147 | dealing to 2 to 8 players and entering HIDDEN keeps the invariant |
| LegacyGame.Game.constructor | game.py:59-79 | a new game is IDLE with no players, `num_players` unset and a full 144-tile bag |
| LegacyGame.Game.Reset | game.py:81-100 | IDLE, a fresh 144-tile bag, `num_players` set to the number of players, the same players with empty hands |
| LegacyGame.Game.JoinGame | game.py:124-135 | rejects outside IDLE only (no player cap); a repeat id changes nothing; a new id is appended with an empty hand |
| LegacyGame.Game.DivyOutTiles | game.py:149-170 | rejects counts outside 2 to 8 before any tile moves; otherwise deals the tier's share to each player |
| LegacyGame.Game.StartGame | game.py:137-147 | legal only in IDLE; `num_players` set first; a successful deal enters HIDDEN, not ACTIVE |
| LegacyGame.Game.Split | game.py:172-180 | legal only in HIDDEN; moves to ACTIVE and changes nothing else |
| LegacyGame.Game.Peel | game.py:182-200 | legal only in ACTIVE, no rate limit; rejects when players outnumber tiles; each player gains one tile; ENDGAME when fewer tiles than players remain |
| LegacyGame.Game.Swap | game.py:202-236 | same legality, hand and bag arithmetic and ENDGAME trigger as the later revision |
| LegacyGame.Game.Bananagrams | game.py:238-246 | ENDGAME → OVER, otherwise rejected with no change |
| LegacyGame.Game.ContinueGame | game.py:248-256 | OVER → ENDGAME, otherwise rejected with no change |
| BoardStore.CellKeyRoundTrip | frontend/src/stores/board.ts:13-15 | a cell's key parses back to that cell |
| BoardStore.CellKeyInjective | frontend/src/stores/board.ts:13-15 | different cells have different keys |
| Decimal.ParseIntOfIntToString | frontend/src/stores/board.ts:49-54 | `Number` of the decimal text of an integer gives that integer back, so keys split back into their cell |
| BoardStore.OccupiedCells | frontend/src/stores/board.ts:49-54 | one cell per stored key, in key order, whose key is that entry's key |
| BoardStore.AllTiles | frontend/src/stores/board.ts:56-61 | one entry per stored tile, carrying that tile and the cell its key names |
| BoardStore.TilesAtOccupiedCells | frontend/src/stores/board.ts:17-19 | `getTileAt` at every listed cell gives that entry's tile |
| BoardStore.OccupiedIff | frontend/src/stores/board.ts:45-54 | a cell holds a tile exactly when it is among the occupied cells |
| BoardStore.OccupiedCellsDistinct | frontend/src/stores/board.ts:49-54 | no cell is listed twice |
| BoardStore.TileAtAfterPlace | frontend/src/stores/board.ts:21-23 | after placing, the target cell holds the tile and every other cell is unchanged |
| BoardStore.TileAtAfterRemove | frontend/src/stores/board.ts:25-32 | after removing, the cell is empty and every other cell is unchanged |
| BoardStore.MovedBoard | frontend/src/stores/board.ts:34-43 | a move puts the tile at the destination, empties the source, leaves every other cell alone and keeps the tile count |
| BoardStore.BoundsOf | frontend/src/stores/board.ts:67-84 | the min/max loop gives bounds that enclose every cell and are each attained |
| BoardStore.Search | frontend/src/stores/board.ts:86-115 | the breadth-first search visits exactly the tiles reachable from the start |
| BoardStore.SearchDecides | frontend/src/stores/board.ts:113-114 | comparing the visited count with the tile count decides connectivity |
| BoardStore.Board.constructor | frontend/src/stores/board.ts:9-11 | an empty 40-cell-wide board |
| BoardStore.Board.PlaceTile | frontend/src/stores/board.ts:21-23 | the cell's key now maps to the tile, overwriting; the board stays well formed |
| BoardStore.Board.RemoveTile | frontend/src/stores/board.ts:25-32 | returns the tile that was at the cell, or nothing, and deletes the key |
| BoardStore.Board.MoveTile | frontend/src/stores/board.ts:34-43 | moves, and returns true, exactly when the source is occupied and the destination empty (so never onto itself); otherwise changes nothing |
| BoardStore.Board.ClearBoard | frontend/src/stores/board.ts:63-65 | no cell is occupied afterwards |
| BoardStore.Board.GetBoardBounds | frontend/src/stores/board.ts:67-84 | none exactly when the board is empty; otherwise bounds enclosing every tile, each attained |
| BoardStore.Board.IsConnected | frontend/src/stores/board.ts:86-115 | true exactly when every tile is reachable from the first by 4-neighbour steps over tiles (so for 0 or 1 tiles) |
| GameLogic.ValidateBoard | frontend/src/composables/useGameLogic.ts:8-26 | the bench error first, then the empty-board error, then the connectivity error; valid exactly when all three pass |
| GameLogic.ScanRow | frontend/src/composables/useGameLogic.ts:36-50 | one row's loop, running one cell past the right bound, yields that row's words |
| GameLogic.ScanColumn | frontend/src/composables/useGameLogic.ts:52-66 | one column's loop, running one cell past the bottom bound, yields that column's words |
| GameLogic.ScanBoard | frontend/src/composables/useGameLogic.ts:36-66 | the rows' words top to bottom, then the columns' left to right |
| GameLogic.ExtractWords | frontend/src/composables/useGameLogic.ts:28-68 | `[]` on an empty board; otherwise the board's across and down words, upper-cased, each longer than one UTF-16 code unit, first occurrences kept in order; the board is only read |
| Seqs.Dedup | frontend/src/composables/useGameLogic.ts:67 | the result holds no duplicate and exactly the elements of the input |
| Seqs.DedupKeepsFirstOccurrenceOrder | frontend/src/composables/useGameLogic.ts:67 | the de-duplicated list keeps the order of first occurrences in the input |
| GameLogic.ExtractedWordsSpelled | frontend/src/composables/useGameLogic.ts:28-68 | no word is listed twice, and a word is listed exactly when some row or column inside the bounds spells it as a maximal run |
| GameLogic.BoundsUnique | frontend/src/composables/useGameLogic.ts:29-33 | the bounds that enclose and attain the tiles are unique, so the words do not depend on how they were found |
| GameLogic.OutsideIsEmpty | frontend/src/composables/useGameLogic.ts:36-66 | the cell one past the bounds is empty, so the open run at a line's end is flushed |
| Runs.UnsplitSegments | frontend/src/composables/useGameLogic.ts:38-49 | cutting a line at its empty cells and joining the pieces gives the line back |
| Runs.WordsMembers | frontend/src/composables/useGameLogic.ts:43-45 | a word is emitted exactly for a run longer than one UTF-16 code unit, upper-cased when asked |
| Runs.ScanLine | frontend/src/composables/useGameLogic.ts:38-49 | the accumulate-and-flush loop over one line yields the words of its closed runs |
| Runs.TerminatedScan | frontend/src/composables/useGameLogic.ts:38-49 | a line that ends in an empty cell loses no run |
| Validation.Required | frontend/src/composables/useValidation.ts:18-21 | passes exactly for a value that is neither null nor undefined and not blank once trimmed |
| Validation.MinLength | frontend/src/composables/useValidation.ts:23-26 | passes exactly when the text has at least `min` UTF-16 code units; the default message names `min` |
| Validation.MaxLength | frontend/src/composables/useValidation.ts:28-31 | passes exactly when the text has at most `max` UTF-16 code units; the default message names `max` |
| Text.Utf16Length | frontend/src/composables/useValidation.ts:24-29 | `length` counts UTF-16 code units: at least one and at most two per character |
| Text.Utf16LengthBmp | frontend/src/composables/useValidation.ts:24-29 | text within the Basic Multilingual Plane has exactly one code unit per character |
| Validation.LengthCountsCodeUnits | frontend/src/composables/useValidation.ts:23-31 | `minLength(2)` accepts a single emoji and `maxLength(1)` rejects it, since the emoji is two code units |
| Validation.Pattern | frontend/src/composables/useValidation.ts:33-36 | passes exactly when the pattern matches the value's text |
| Validation.GameIdRule | frontend/src/composables/useValidation.ts:38-41 | passes exactly for four ASCII digits |
| Validation.PlayerNameRule | frontend/src/composables/useValidation.ts:43-51 | passes exactly when the trimmed text has 2 to 20 characters, each a letter, a digit, `_` or `-` |
| Validation.PlayerNameLengthInUnits | frontend/src/composables/useValidation.ts:43-51 | measuring the trimmed name in UTF-16 code units, as the source does, accepts exactly the same names, because the pattern admits only ASCII |
| Validation.ContainsTagMeaning | frontend/src/composables/useValidation.ts:53-59 | a tag is found exactly when some `<` comes before some `>` |
| Validation.NoHtml | frontend/src/composables/useValidation.ts:53-59 | passes exactly when no tag is found |
| Validation.VerdictMeaning | frontend/src/composables/useValidation.ts:62-69 | valid exactly when every rule passes; otherwise the first failing rule's message |
| Validation.Validate | frontend/src/composables/useValidation.ts:62-69 | the early-exit loop gives that verdict |
| Validation.LengthWindow | frontend/src/composables/useValidation.ts:23-31 | the two length rules accept exactly the UTF-16 lengths inside the window; a short text fails on the first |
| Validation.ValidateGameId | frontend/src/composables/useValidation.ts:83-89 | valid exactly for four digits; a blank value is reported missing, anything else malformed |
| Validation.ValidatePlayerName | frontend/src/composables/useValidation.ts:91-97 | valid exactly for a well-formed name; a blank value is reported missing, anything else malformed |
| Validation.GameIdSamples | frontend/src/composables/__tests__/useValidation.spec.ts:5-12 | `1234` is a game id; `123`, `12345` and `abcd` are not |
| Validation.PlayerNameSamples | frontend/src/composables/__tests__/useValidation.spec.ts:17-19 | `Alice`, `Bob123` and `test_user` are player names |
| Validation.PlayerNameRejects | frontend/src/composables/__tests__/useValidation.spec.ts:20-22 | `a`, the empty string and a 37-character name are not |
| Validation.Validator.constructor | frontend/src/composables/useValidation.ts:14-15 | no errors |
| Validation.Validator.ValidateField | frontend/src/composables/useValidation.ts:71-81 | stores the failing message under the field or deletes the field's entry; other fields unchanged; returns the validity |
| Validation.Validator.HasErrors | frontend/src/composables/useValidation.ts:116-118 | true exactly when some field has an error |
| Validation.Validator.ClearErrors | frontend/src/composables/useValidation.ts:120-122 | no field has an error afterwards |
| Validation.Validator.GetError | frontend/src/composables/useValidation.ts:124-126 | that field's entry, if any |
| Validation.UnescapeEscape | frontend/src/composables/useValidation.ts:102-112 | escaping loses nothing: decoding the entities gives the text back |
| Validation.Escape | frontend/src/composables/useValidation.ts:102-112 | escaped text holds no `<` or `>`, is empty exactly when the input is, and starts and ends with white space exactly when the input does |
| Validation.EscapeAppend | frontend/src/composables/useValidation.ts:102-112 | escaping works character by character |
| Validation.CollapseSpaces | frontend/src/composables/useValidation.ts:113 | after collapsing, every white-space character is a plain space |
| Validation.Collapse | frontend/src/composables/useValidation.ts:113 | collapsing never lengthens the text, keeps it non-empty, and keeps a non-space first character and a non-space end |
| Validation.CollapseSingle | frontend/src/composables/useValidation.ts:113 | after collapsing, no two white-space characters are adjacent |
| Validation.SanitizeNoTag | frontend/src/composables/useValidation.ts:99-114 | sanitized text holds no `<` or `>`, so the HTML rule accepts it |
| Validation.SanitizeSpaces | frontend/src/composables/useValidation.ts:99-114 | sanitized text neither starts nor ends with white space, and its only white space is single spaces |
| Validation.SanitizeRoundTrip | frontend/src/composables/useValidation.ts:99-114 | for text with no inner white space, decoding the sanitized text gives the trimmed text back |
| Validation.SanitizeTrims | frontend/src/composables/__tests__/useValidation.spec.ts:28 | `  test  ` sanitizes to `test` |
| Text.TrimEmptyIffAllSpace | frontend/src/composables/useValidation.ts:19 | text trims to empty exactly when it is all white space |
| Text.Trim | frontend/src/composables/useValidation.ts:101 | the trimmed text is a slice of the input with only white space cut from each end, and neither end of it is white space |
| Text.TrimIdempotent | frontend/src/composables/useValidation.ts:101 | trimming twice is trimming once |
| Text.UpperIdempotent | backend/game.py:304 | upper-casing twice is upper-casing once |
| Helpers.FindDifference | static/scripts/ts/helpers.ts:115-125 | the copy-and-splice loop computes the difference, leaving the input alone |
| Helpers.DifferenceMultiset | static/scripts/ts/helpers.ts:115-125 | the result is the multiset difference a − b |
| Helpers.DifferenceKeepsOrder | static/scripts/ts/helpers.ts:115-125 | the surviving elements of `a` keep their order |
| Helpers.DifferenceWithItself | static/scripts/ts/helpers.ts:115-125 | `findDifference(a, a)` is empty |
| Helpers.GetTileNeighbors | static/scripts/ts/helpers.ts:23-42 | at most 4 distinct cells, each adjacent; for a cell on the grid, exactly the adjacent cells on the grid |
| Helpers.GetAllWords | static/scripts/ts/helpers.ts:76-113 | the two nested loops as written: the rows' closed runs, then the columns' |
| Helpers.ScanGridLine | static/scripts/ts/helpers.ts:81-95 | one line's loop emits only runs longer than one UTF-16 code unit that an empty cell closes |
| Helpers.CornerWordLost | static/scripts/ts/helpers.ts:81-95 | a two-letter word in the last two cells of the top row is never emitted, though the row spells it |
| Helpers.GetAllWordsFlushed | static/scripts/ts/helpers.ts:76-113 | with the run open at each line's end pushed as well: every word of the board |
| Helpers.ScanLineFlushed | static/scripts/ts/helpers.ts:81-95 | the corrected line loop yields every run longer than one UTF-16 code unit in the line |
| Helpers.AllWordsSpelled | static/scripts/ts/helpers.ts:76-113 | a word is listed exactly when some row or column spells it |
| Helpers.ScannedWordsAreWords | static/scripts/ts/helpers.ts:76-113 | whatever the as-written scan lists is a word of the board |
| Helpers.IsValidBoard | static/scripts/ts/helpers.ts:44-74 | false with a non-empty bench; no answer (the source throws) with no tiles; otherwise true exactly when every tile is reachable from the first |
| Helpers.SeenClosed | static/scripts/ts/helpers.ts:55-71 | when the work list is empty, the visited tiles are closed under neighbour steps |
| Helpers.Covered | static/scripts/ts/helpers.ts:73 | when the search ends, all tiles are visited exactly when every tile is reachable from the first |
| Grid.ClosedHoldsReachable | frontend/src/stores/board.ts:86-115 | a set of visited tiles that holds the start and is closed under steps holds every reachable tile |
| PlayerStore.BenchTilesExactly | frontend/src/stores/player.ts:96 | the bench is exactly the tiles not on the board, in order |
| PlayerStore.WithoutTileExactly | frontend/src/stores/player.ts:39-41 | removing drops every tile with that id and keeps the others in order |
| PlayerStore.MarkOnBoard | frontend/src/stores/player.ts:43-48 | the first tile with the id gets the flag; nothing else changes |
| PlayerStore.MarkOnBoardAbsent | frontend/src/stores/player.ts:43-48 | with no such tile nothing changes |
| PlayerStore.MarkOnBoardAt | frontend/src/stores/player.ts:43-48 | when the first tile with the id is at `i`, exactly that tile's flag changes |
| PlayerStore.UpdateTilesExactly | frontend/src/stores/player.ts:50-58 | existing tiles stay in place, followed in order by exactly the incoming tiles whose id was absent |
| PlayerStore.ToggleFlips | frontend/src/stores/player.ts:68-74 | toggling flips the id's membership and leaves other ids alone |
| PlayerStore.ToggleTwice | frontend/src/stores/player.ts:68-74 | toggling twice restores the selection's members |
| PlayerStore.SelectEach | frontend/src/stores/player.ts:80-82 | adding each id in turn gives the old selection plus those ids, with no id twice |
| PlayerStore.Player.constructor | frontend/src/stores/player.ts:7-10 | empty name, id, tiles and selection |
| PlayerStore.Player.SetTiles | frontend/src/stores/player.ts:28-33 | the list is replaced wholesale |
| PlayerStore.Player.AddTile | frontend/src/stores/player.ts:35-37 | one tile appended at the end |
| PlayerStore.Player.RemoveTile | frontend/src/stores/player.ts:39-41 | every tile with the id dropped, the rest in order |
| PlayerStore.Player.MarkTileOnBoard | frontend/src/stores/player.ts:43-48 | the flag set on the first tile with the id, if any |
| PlayerStore.Player.UpdateTiles | frontend/src/stores/player.ts:50-58 | the tiles with unseen ids appended |
| PlayerStore.Player.SelectTile | frontend/src/stores/player.ts:60-62 | the id is selected, the selection otherwise unchanged |
| PlayerStore.Player.DeselectTile | frontend/src/stores/player.ts:64-66 | the id is no longer selected, the rest unchanged |
| PlayerStore.Player.ToggleTileSelection | frontend/src/stores/player.ts:68-74 | the id's membership flips |
| PlayerStore.Player.ClearSelection | frontend/src/stores/player.ts:76-78 | nothing selected |
| PlayerStore.Player.SelectAll | frontend/src/stores/player.ts:80-82 | every tile's id added to the selection |
| PlayerStore.Player.Reset | frontend/src/stores/player.ts:88-93 | empty name, id, tiles and selection |
| Socket.ReconcileLetters | frontend/src/stores/socket.ts:25-48 | exactly one tile per server letter, tile `i` carrying letter `i` |
| Socket.ReconcileOrigin | frontend/src/stores/socket.ts:29-47 | each tile is an unused existing tile with its id and board flag kept, or a fresh tile off the board |
| Socket.FindUnused | frontend/src/stores/socket.ts:29-37 | the position found holds a tile with that letter whose id is unused, and no earlier tile is such a tile; `|existing|` when there is none |
| Socket.PickFirstUnused | frontend/src/stores/socket.ts:29-37 | when every tile before position `n` has a used id and tile `n` is unused, the letter of tile `n` picks tile `n` itself |
| Socket.ReconcileDistinct | frontend/src/stores/socket.ts:22-47 | no tile id appears twice, so no existing tile is reused twice |
| Socket.ReconcileSameHand | frontend/src/stores/socket.ts:25-48 | when the server sends back the letters already held, every tile is kept as it is |
| Socket.BuildHand | frontend/src/stores/socket.ts:20-48 | the loop with its `usedTileIds` set builds the reconciled hand |
| Socket.UpdatePlayerTiles | frontend/src/stores/socket.ts:15-54 | the store's tiles are replaced once, by the reconciled hand |
| GameStore.Roster | frontend/src/stores/game.ts:12-22 | one entry per key of `players`, id and name the key, count the hand's length (0 if not an array), ready exactly when not IDLE; empty without a state or without `players` |
| GameStore.Field | frontend/src/stores/game.ts:23-25 | the state's value under the key; undefined when there is no state or the state lacks the key |
| GameStore.TilesRemaining | frontend/src/stores/game.ts:23 | the server's `tiles_remaining` exactly when that field is truthy; 0 when it is missing or falsy |
| GameStore.WinningWords | frontend/src/stores/game.ts:25 | the server's `winning_words` when that field is truthy; `[]` when it is missing or falsy |
| GameStore.InPhase | frontend/src/stores/game.ts:26-28 | the view holds exactly when there is a state whose `state` field is that phase's name |
| GameStore.PhasesExclusive | frontend/src/stores/game.ts:26-28 | at most one of ACTIVE, ENDGAME and OVER holds, and none without a state |
| GameStore.PlayersRecordKeys | frontend/src/stores/game.ts:45-48 | the built record's keys are the players' ids, each once, in first-appearance order |
| GameStore.PlayersRecordGet | frontend/src/stores/game.ts:45-48 | under each id, the letters of the last player listed with it (`[]` without tiles) |
| GameStore.PlayersRecordAbsent | frontend/src/stores/game.ts:45-48 | an id no player has is absent |
| GameStore.BuildRecord | frontend/src/stores/game.ts:45-48 | the `forEach` builds that record |
| GameStore.RosterAfterSetPlayers | frontend/src/stores/game.ts:12-22 | after `setPlayers`, the roster lists each distinct id once, in first-appearance order |
| GameStore.Store.constructor | frontend/src/stores/game.ts:6-10 | no id, no state, no reserved ids, not loading, no error |
| GameStore.Store.UpdateGameState | frontend/src/stores/game.ts:34-40 | with no state the data becomes the state; otherwise the data's keys override and every other key is kept |
| GameStore.Store.SetPlayers | frontend/src/stores/game.ts:42-51 | no change without a state; otherwise `players` becomes the id-to-letters record |
| GameStore.Store.Reset | frontend/src/stores/game.ts:74-78 | id, state and error cleared; reserved ids and the loading flag kept |
| Logging.Record | frontend/src/utils/logger.ts:26-29 | one entry appended; at 100 entries the oldest is dropped; never more than 100 |
| Logging.RecordAllKeepsLatest | frontend/src/utils/logger.ts:13-29 | however many entries are logged, the queue is exactly the latest 100 in logging order |
| Logging.Logger.Log | frontend/src/utils/logger.ts:16-29 | records one entry with the given level, message, context and data |
| Logging.Logger.Debug | frontend/src/utils/logger.ts:55-57 | a debug entry |
| Logging.Logger.Info | frontend/src/utils/logger.ts:59-61 | an info entry |
| Logging.Logger.Warn | frontend/src/utils/logger.ts:63-65 | a warning entry |
| Logging.Logger.Error | frontend/src/utils/logger.ts:67-69 | an error entry |
| Logging.Logger.SocketEvent | frontend/src/utils/logger.ts:72-74 | a debug entry in the WebSocket context |
| Logging.Logger.SocketError | frontend/src/utils/logger.ts:76-78 | an error entry in the WebSocket context carrying the error |
| Logging.Logger.TileUpdate | frontend/src/utils/logger.ts:81-83 | a debug entry in the Tile System context |
| Logging.Logger.GameEvent | frontend/src/utils/logger.ts:86-88 | an info entry in the Game context |
| Logging.Logger.GetRecentLogs | frontend/src/utils/logger.ts:91-93 | a suffix of the queue: the last `count` entries, the whole queue for a count of 0 or past its length |
| Logging.Logger.DefaultRecentLogs | frontend/src/utils/logger.ts:91-93 | the call with the default count `DefaultRecent` (50): the last 50 entries, or the whole queue when it is shorter |
| Logging.SliceFrom | frontend/src/utils/logger.ts:92 | `slice` with a negative start gives a suffix of the list |
| Logging.Logger.ClearLogs | frontend/src/utils/logger.ts:96-98 | the queue is empty |
| DragDrop.FindTileById | frontend/src/composables/useDragDrop.ts:112-123 | when the hand holds the id, the hand's first tile with it; otherwise the tile of the first board entry with the id; nothing exactly when neither holds one |
| DragDrop.FindInHand | frontend/src/composables/useDragDrop.ts:114 | the first tile in the hand with the id (no tile before it has that id), or nothing exactly when none has it |
| Validation.OrDefault | frontend/src/composables/useValidation.ts:25 | a present non-empty custom message is used; an absent or empty one gives the default |
| DragDrop.FindOnBoard | frontend/src/composables/useDragDrop.ts:118-120 | the index of the first board entry whose tile has the id, or the length when none has it |
| DragDrop.FindTilePosition | frontend/src/composables/useDragDrop.ts:125-129 | the cell of the board's tile with the id, or nothing exactly when none has it |
| DragDrop.FoundTilesExactly | frontend/src/composables/useDragDrop.ts:24 | the tiles moved are exactly those found for the selected ids |
| DragDrop.TilesToMove | frontend/src/composables/useDragDrop.ts:23-25 | the whole selection when the dragged tile is selected, else that tile alone |
| DragDrop.Offset | frontend/src/composables/useDragDrop.ts:28-34 | target minus source when the drag has a source cell, else zero |
| DragDrop.PlanMoves | frontend/src/composables/useDragDrop.ts:37-74 | the validation loop with its early returns gives the plan |
| DragDrop.PlanCancelled | frontend/src/composables/useDragDrop.ts:46-66 | the drop is cancelled exactly when some tile would leave the board, land on another tile, or be one of several dragged from the bench |
| DragDrop.PlanMovesExactly | frontend/src/composables/useDragDrop.ts:37-74 | a plan holds exactly the moves the tiles' checks give |
| DragDrop.DropPlanSafe | frontend/src/composables/useDragDrop.ts:37-74 | every planned board move stays on the board and lands on an empty cell or its own; a bench move goes to the target |
| DragDrop.PrepareDrop | frontend/src/composables/useDragDrop.ts:15-74 | the guards and the validation loop give the drop plan |
| DragDrop.ApplyMovesKeepsBoard | frontend/src/composables/useDragDrop.ts:76-88 | applying the moves keeps the board well formed, one tile per key |
| DragDrop.BoardMoveShifts | frontend/src/composables/useDragDrop.ts:42-62 | a board tile moves by the offset |
| DragDrop.BenchMovePlaces | frontend/src/composables/useDragDrop.ts:83-86 | a bench tile is placed at the target and marked on the board, every other cell unchanged |
| DragDrop.ExecuteMoves | frontend/src/composables/useDragDrop.ts:76-88 | the moves are carried out in order on the board and the hand; the selection is kept until the end |
| DragDrop.HandleCellDrop | frontend/src/composables/useDragDrop.ts:15-91 | nothing without drag data, a known dragged tile or a plan; otherwise the planned moves are applied and the selection cleared |
| DragDrop.HandleBenchDrop | frontend/src/composables/useDragDrop.ts:93-110 | bench-sourced drags are ignored; otherwise the tile at the source cell is removed and marked off the board, and the selection cleared |
| Route.GetRouteParam | frontend/src/utils/route.ts:6-9 | the parameter when it is one string, else the empty string |
| Route.StringOrEmpty | frontend/src/utils/route.ts:6-9 | non-empty exactly when the value is a non-empty string, and then that string |
| Route.GetRouteQuery | frontend/src/utils/route.ts:14-17 | the query value when it is one string, else the empty string |
| Route.GetRouteQueryBoolean | frontend/src/utils/route.ts:22-25 | true exactly when the value is the string `true` |
| Route.ValidateRouteParam | frontend/src/utils/route.ts:30-42 | valid exactly for a non-empty string; the value is always returned; a failure names the parameter |
| GameReducer.InitialStateFields | frontend/src/app/store/reducers/game.reducer.ts:5-11 | game `testing`, no selected tiles, no player id, neither loaded nor loading |
| GameReducer.ReduceOrInitial | frontend/src/app/store/reducers/game.reducer.ts:22 | a missing state starts from the initial one |
| GameReducer.ReduceLookup | frontend/src/app/store/reducers/game.reducer.ts:22-49 | each key of the new state: the payload's value first, then the flags the action sets, then the old value; other actions change nothing |
| GameReducer.FlagsLookup | frontend/src/app/store/reducers/game.reducer.ts:26-46 | spreading the payload over the flags: its own keys first, then `loading` and `loaded`, then the old value |
| GameReducer.ReduceKeepsKeys | frontend/src/app/store/reducers/game.reducer.ts:22-49 | the new object keeps the old keys in their places and holds no key twice |
| OrderedMaps.GetPut | frontend/src/stores/board.ts:21-23 | after assigning a key, it reads the new value and every other key reads as before |
| OrderedMaps.GetRemove | frontend/src/stores/board.ts:29 | after deleting a key, it reads nothing and every other key reads as before |
| OrderedMaps.GetMerge | frontend/src/stores/game.ts:38 | a spread reads the second object's value where it has the key, else the first's |
| OrderedMaps.KeysMerge | frontend/src/stores/game.ts:38 | a spread keeps the first object's keys in place and appends the second's new keys in order |

## Left out

- The lock around each engine method: each method is one atomic step.
- Randomness: `random.shuffle` is any permutation of the bag. No distribution is modelled.
- The clock: `datetime.now()` is an integer of microseconds passed in. `date_created` is recorded but never read. `peel` reads the clock twice, once for the rate check (backend/game.py:220) and once for `last_peel` (backend/game.py:225); the model uses one reading for both.
- The word list file: it is a set of strings passed to `bananagrams`.
- `__str__`, `__json__` and `for_json`: presentation only.
- Features that appear only in other files and are absent from `backend/game.py`: a `GameError` type and `change_player_id`.
- GameLogic.ExtractWords and Runs.WordsMembers: upper-casing is ASCII-only, where `toUpperCase()` also maps other letters (useGameLogic.ts:44, :60). Tiles carry only the letters A–Z, so the words of a real board are unaffected. The word-length test counts UTF-16 code units, as `length > 1` does; so does the one in Helpers.ScanGridLine and Helpers.ScanLineFlushed, whose words are not upper-cased.
- BackendGame.ScoreWords: upper-casing is ASCII-only. Python's `str.upper()` also maps other letters: it turns the ligature "ﬁ" into "FI", for example. A word with such letters may get a different verdict here.
- BackendGame.VerdictIgnoresCase: case is ASCII case only, for the same reason as in `ScoreWords`.
- Validation.MinLength and Validation.MaxLength: lengths are in UTF-16 code units, as `length` counts them. Strings are sequences of Unicode scalar values, so lone surrogates cannot occur.
- GameStore.Roster: entries come in the order the ids were created. `Object.entries` lists integer-like keys (such as "12", which `playerName` accepts) first, in ascending numeric order, so for such ids the source's roster order differs.
- GameStore.PlayersRecordKeys: "first-appearance order" is the order in which the keys were created. Enumeration puts integer-like ids first, in ascending order.
- GameStore.RosterAfterSetPlayers: the roster order holds for ids that are not integer-like. The source lists integer-like ids first, in ascending order.
- OrderedMaps.KeysMerge: a spread keeps the first object's keys in creation order and appends the new keys. JavaScript enumerates integer-like keys first, in ascending order, whatever the spread order.
- GameReducer.ReduceKeepsKeys: the old keys keep their places in creation order. An integer-like key in the payload would be enumerated before them in JavaScript.
- BackendGame.Game.Swap: an unknown player raises `KeyError` in the source. Here it is the error `UnknownPlayer`, with nothing changed.
- BackendGame.Game.Peel: the rate check uses the whole seconds of the delta, so any peel within the first second of the delta is rejected. Some descriptions of the game call this a 0.75-second limit; the model follows the code.
- BackendGame.Game.StartGame: a rejected player count still leaves `num_players` set. Some descriptions say a failed start changes nothing; the model follows the code.
- Helpers.IsValidBoard:
  - The source reads the tiles from the page; the model takes their cells as distinct cells on the 35×35 grid.
  - With no tiles the source throws. The model answers nothing.
- The DOM, socket and framework code: Vue, Angular and jQuery wiring, socket emits, `fetch` in `loadReservedGameIds`, and `setLoading`/`setError`/`setGameId`/`setPlayerName`/`setPlayerId`, which are bare assignments.
- Console output and `Date` time stamps in the logger: a time stamp is a number passed in. `exportLogs` is JSON serialisation and is not modelled.
- Tile objects shared between the board store and the player's list: the board keeps its own copy of a tile. Marking a tile on the board in one store does not show in the other.
- DragDrop.HandleCellDrop and DragDrop.HandleBenchDrop: the socket messages after each move are not modelled.
- JavaScript numbers are whole numbers: board cells, offsets and counts are integers.
- `Json.JsValue` covers the values the stores hold. Functions, symbols and prototype chains are not modelled.

## Findings

| source | as written | input that shows it | evidently intended | confidence | as-written member | corrected member |
|---|---|---|---|---|---|---|
| static/scripts/ts/helpers.ts:81-111 | a word is pushed only when an empty cell ends it, and the open run is never pushed after the last column or row | a board whose top row holds `a` and `b` in its last two cells | every maximal run longer than one code unit is a word, including one that reaches the board's edge | not executed | Helpers.CornerWordLost | Helpers.AllWordsSpelled |
