# PyChessDesktop: the game's bookkeeping, verified

PyChessDesktop is a pygame chess program built on python-chess. Around the
board it keeps a lot of small bookkeeping logic:

- a puzzle trainer that follows an expected line of moves;
- a tutorial that pages through lessons;
- a top-10 leaderboard with its score formula;
- the name-entry box;
- the board-skin catalogue and its folder names;
- the settings dictionary with its defaults;
- the game clock and the result-to-winner mapping;
- in `main.py`: material counting, the replay player, the mapping from a mouse click to a square, and the choice of sound for an action.

This project models that logic in Dafny and proves what each piece promises.
The board is a sequence of 64 optional `(kind, colour)` pieces, with square 0 at a1.
Moves are their UCI text (`"e2e4"`). Whatever the program reads from disk, the
clock or the random generator becomes a parameter.

Modules and the files they model:

| module | models |
|---|---|
| `Wrappers` | `Option`, shared by all modules |
| `Chess` | pieces and the 64-square board |
| `Puzzles` | `src/puzzle_manager.py` |
| `Tutorial` | `src/tutorial_manager.py` |
| `Scoring` | `src/scoring.py` |
| `TextBox` | `TextInput` in `src/ui.py` |
| `Skins` | `src/skin_manager.py` |
| `Settings` | `src/config_manager.py` |
| `GameClock` | `src/engine.py` |
| `Material` | `calcular_material` in `main.py` |
| `Sounds` | `realizar_jogada` and `tocar_som_acao` in `main.py` |
| `Replay` | the replay screen's cursor in `main.py` |
| `BoardClicks` | the click-to-square mapping in `main.py` |

Objects whose fields the program updates are classes whose methods have
`modifies` clauses:

- `PuzzleManager`, `TutorialManager`, `TextInput`, `SkinManager`, `ConfigManager`, `Engine`;
- `ReplayPlayer`, which gathers the replay screen's local variables.

Pure computations are functions, and the loops of the source are `while` loops
with invariants. Specifically, these are the material count, the folder scan
of `reload_skins` and the rewind and fast-forward of the replay.

The leaderboard uses Python's `list.sort(key=..., reverse=True)`. That sort is
stable, so it is modelled by the insertion sort `Scoring.SortDesc`. The proofs
show that `SortDesc` is sorted, a permutation and stable, and that these three
facts determine its result.

## Model

| member | source | states |
|---|---|---|
| `Puzzles.PuzzleManager.constructor` | src/puzzle_manager.py:7-13 | starts with the loaded puzzles, no current puzzle, an empty line and the cursor at 0 |
| `Puzzles.PuzzleManager.GetRandomPuzzle` | src/puzzle_manager.py:22-27 | with no puzzles: returns None and changes nothing; otherwise some member of the list becomes current; if it has `moves`, they become the line and the cursor resets to 0; if not, a `KeyError('moves')` is raised after the puzzle became current, with the line and the cursor unchanged; keeps `move_index <= len(puzzle_moves)` |
| `Puzzles.PuzzleManager.CheckMove` | src/puzzle_manager.py:29-45 | past the end: (false, true) with no change; the expected move: (true, finished) with the cursor one further, where finished iff the line is done; any other move: (false, false) with no change; keeps the cursor bound |
| `Puzzles.PuzzleManager.SolutionMove` | src/puzzle_manager.py:55-60 | Some iff the cursor is inside the line, and then the move at the cursor; reads only |
| `Puzzles.PuzzleManager.NextOpponentMove` | src/puzzle_manager.py:47-53 | returns exactly what the hint would have shown and moves the cursor by one if so, else nothing changes; keeps the cursor bound |
| `Tutorial.NextIndex` | src/tutorial_manager.py:23-27 | a step forward exists iff the index is below `len - 1`, and it lands on the next index, still inside the list |
| `Tutorial.PrevIndex` | src/tutorial_manager.py:29-33 | a step back exists iff the index is positive, and it lands one lower |
| `Tutorial.StepsUndo` | src/tutorial_manager.py:24-32 | a successful next followed by prev restores the index, and the other way round |
| `Tutorial.TutorialManager.constructor` | src/tutorial_manager.py:6-10 | starts at index 0 over the loaded lessons |
| `Tutorial.TutorialManager.CurrentLesson` | src/tutorial_manager.py:19-21 | None iff there are no lessons, else the lesson at the index |
| `Tutorial.TutorialManager.NextLesson` | src/tutorial_manager.py:23-27 | moves forward and returns the new lesson when possible, else returns None and stays; keeps the index on a lesson |
| `Tutorial.TutorialManager.PrevLesson` | src/tutorial_manager.py:29-33 | moves back and returns the new lesson when possible, else returns None and stays; keeps the index on a lesson |
| `Tutorial.TutorialManager.CheckMove` | src/tutorial_manager.py:35-41 | true iff there is a lesson whose `expected_move` equals the move; a `KeyError` iff a non-empty lesson lacks that key |
| `Tutorial.TutorialManager.ArrowMove` | src/tutorial_manager.py:43-50 | no arrow iff there is no lesson or no `arrow` key; an arrow iff the `arrow` entry is a list of at least two texts, and then from its first to its second entry; any other `arrow` entry raises (`BadArrow`) |
| `Scoring.FinalScore` | src/scoring.py:13-23 | never negative; 0 for a loss |
| `Scoring.FinalScoreOfWin` | src/scoring.py:22-23 | a win scores `1000 + 50*material - 2*seconds` when that is not negative, else 0 |
| `Scoring.FinalScoreMonotone` | src/scoring.py:22-23 | more material never lowers the score; more time never raises it |
| `Scoring.InsertStable` | src/scoring.py:34 | one more element; the elements are the old ones plus the new entry |
| `Scoring.InsertStableSorted` | src/scoring.py:34 | inserting into a descending list keeps it descending |
| `Scoring.SortDesc` | src/scoring.py:34 | same length, a permutation of the input, sorted by score descending |
| `Scoring.SortDescStable` | src/scoring.py:34 | entries sharing a score keep their input order, as in Python's stable sort |
| `Scoring.SortDescOfSorted` | src/scoring.py:34 | sorting a descending list changes nothing |
| `Scoring.SortedStableUnique` | src/scoring.py:34 | two descending lists that are permutations of each other, with the same order among equal scores, are equal |
| `Scoring.SortDescCharacterized` | src/scoring.py:34 | any sorted, stable permutation of the input is `SortDesc` of it |
| `Scoring.LoadScores` | src/scoring.py:25-35 | empty for a missing or unparsable file; otherwise a descending permutation of the stored entries |
| `Scoring.LoadScoresStable` | src/scoring.py:34 | loading keeps the file order among equal scores |
| `Scoring.LoadIsSort` | src/scoring.py:34 | loading is the stable descending sort of the stored entries |
| `Scoring.SaveSortsOnce` | src/scoring.py:39-45 | re-sorting the loaded list with the new entry appended is the sort of the stored entries plus the new one |
| `Scoring.SaveScore` | src/scoring.py:37-46 | at most 10 entries, `min(n + 1, 10)` of them, descending, and exactly the first of the stable descending sort of the stored entries plus the new one |
| `Scoring.SaveScoreInserts` | src/scoring.py:39-46 | the saved list is the new entry inserted into the loaded list, cut to 10 |
| `Scoring.IsHighscore` | src/scoring.py:50-55 | true iff fewer than 10 records are stored or some stored record scores strictly less |
| `Scoring.HighscoreIsKept` | src/scoring.py:37-55 | saving a highscore writes its record, one more copy of it than the loaded list held (for a file of at most 10 records) |
| `Scoring.LowScoreChangesNothing` | src/scoring.py:37-55 | saving a score that is not a highscore writes back the top 10 unchanged |
| `TextBox.PrintableOnAscii` | src/ui.py:35 | on ASCII, `isprintable` holds exactly from the space to the tilde |
| `TextBox.TextInput.constructor` | src/ui.py:19-27 | empty text, active, cursor visible, timer at 0, cap as given (12 by default) |
| `TextBox.TextInput.HandleEvent` | src/ui.py:29-37 | Submit iff Return reaches an active box; Backspace drops the last character (an empty text stays empty); typed text is appended only if it is printable and the text is below the cap; an inactive box or another event leaves the text alone; a well-formed event never takes the text past the cap |
| `TextBox.TextInput.Update` | src/ui.py:39-43 | the timer grows by `dt` and, once it reaches 500 ms, the cursor flips and the timer restarts at 0; the timer stays below 500 ms afterwards |
| `Skins.AlnumOnAscii` | src/skin_manager.py:58 | on ASCII, `isalnum` holds exactly for the digits and the letters; nothing above U+00FF is alphanumeric |
| `Skins.KeepFolderChars` | src/skin_manager.py:58 | every kept character is an alphanumeric, a space or an underscore; every such character of the name is kept; never more characters than the name has |
| `Skins.KeepFolderCharsOne` | src/skin_manager.py:58 | on one character the filter keeps it iff it is allowed |
| `Skins.KeepFolderCharsConcat` | src/skin_manager.py:58 | the filter of a concatenation is the concatenation of the filters, so it keeps the allowed characters in their order |
| `Skins.StripLeading` | src/skin_manager.py:58 | a suffix of the text that does not start with whitespace |
| `Skins.StripLeadingDropsWhitespace` | src/skin_manager.py:58 | every character the left strip drops is whitespace |
| `Skins.StripTrailing` | src/skin_manager.py:58 | a prefix of the text that does not end with whitespace |
| `Skins.StripTrailingDropsWhitespace` | src/skin_manager.py:58 | every character the right strip drops is whitespace |
| `Skins.Strip` | src/skin_manager.py:58 | the slice of the text from `StripStart`, with no whitespace at either end |
| `Skins.StripRemovesWhitespace` | src/skin_manager.py:58 | every character before and after the slice `strip()` keeps is whitespace |
| `Skins.StripKeepsFolderChars` | src/skin_manager.py:58 | stripping a text of allowed characters leaves only allowed characters |
| `Skins.OnlySpaceIsStripped` | src/skin_manager.py:58 | the only allowed character that `strip()` can remove is the space |
| `Skins.FallbackIsClean` | src/skin_manager.py:59 | the fallback "CustomSkin" is a non-empty name of allowed characters with no space at either end |
| `Skins.FolderName` | src/skin_manager.py:58-59 | exactly the stripped filtered name, or "CustomSkin" when that is empty; hence never empty, only alphanumerics, spaces and underscores, no space at either end |
| `Skins.KeepAllFolderChars` | src/skin_manager.py:58 | the filter keeps a name made of allowed characters whole |
| `Skins.StripTrimmed` | src/skin_manager.py:58 | stripping a trimmed text changes nothing |
| `Skins.FolderNameTrimmed` | src/skin_manager.py:58-59 | a folder name has no whitespace at either end |
| `Skins.FolderNameIdempotent` | src/skin_manager.py:58-59 | sanitising a sanitised name changes nothing |
| `Skins.LoadedSkin` | src/skin_manager.py:39-44 | missing `name`, `light_color` and `dark_color` fall back to the folder name, (255, 255, 255) and (0, 0, 0); the image path is the folder's path |
| `Skins.DefaultSkin` | src/skin_manager.py:17-22 | the built-in wooden skin: two RGB colours, the light one brighter than the dark one in every component |
| `Skins.AddEntry` | src/skin_manager.py:31-44 | a folder without a readable config.json changes nothing; a loadable one is then keyed by its name with the skin built from its config |
| `Skins.AddEntryAppends` | src/skin_manager.py:39-44 | the key order only grows, by at most one key at the end |
| `Skins.AddEntryKeepsOthers` | src/skin_manager.py:39-44 | every other key keeps its presence and its skin |
| `Skins.Scan` | src/skin_manager.py:14-46 | the scanned table always holds `default` |
| `Skins.ScanWellFormed` | src/skin_manager.py:14-46 | after a scan: `default` is present and first, and every key is listed exactly once |
| `Skins.ScanOrderPrefix` | src/skin_manager.py:27-44 | insertion order: the keys of a scan of the first entries are a prefix of the keys of the whole scan |
| `Skins.ScanKeys` | src/skin_manager.py:14-44 | the keys are `default` and the directories with a readable config.json, nothing else |
| `Skins.ScanKeepsDefault` | src/skin_manager.py:17-22 | the default entry has the wooden colours unless a loadable folder is itself called `default` |
| `Skins.ScanFindsFolder` | src/skin_manager.py:31-44 | every loadable folder's skin is in the table under its name, built from its config |
| `Skins.NamePairs` | src/skin_manager.py:53 | one (id, display name) pair per key, in order |
| `Skins.NamePairsCover` | src/skin_manager.py:51-53 | for a well-formed table: one pair per skin, the i-th pair is the i-th key with its display name, every skin appears, ids distinct |
| `Skins.WriteSkinFolder` | src/skin_manager.py:61-72 | the folder then holds the written config, and every other entry is kept |
| `Skins.WriteKeepsDistinct` | src/skin_manager.py:61-72 | writing a folder keeps folder names unique |
| `Skins.WrittenSkinIsFound` | src/skin_manager.py:61-75 | after config.json is written, the rescan finds the folder's skin built from the written config |
| `Skins.SkinManager.constructor` | src/skin_manager.py:5-10 | the table is the scan of the folder |
| `Skins.SkinManager.ReloadSkins` | src/skin_manager.py:12-46 | the loop rebuilds exactly the scan of the folder (`Scan`), `default` first |
| `Skins.SkinManager.GetSkinData` | src/skin_manager.py:48-49 | the skin with that id, or the default skin for an unknown id |
| `Skins.SkinManager.GetSkinNames` | src/skin_manager.py:51-53 | exactly one pair per skin, the i-th pair being the i-th key in insertion order with its display name; ids distinct, `default` first |
| `Skins.SkinManager.SaveNewSkin` | src/skin_manager.py:55-75 | fails iff a plain file already has the folder's name (then nothing changes); otherwise returns the sanitised id, and that id then reads back the saved name and colours |
| `Settings.Defaults` | src/config_manager.py:15-22 | exactly the six default keys, with the master volume a number in 0..1 |
| `Settings.Merged` | src/config_manager.py:26-35 | the saved keys override; every other key keeps its value; a missing or unreadable file changes nothing |
| `Settings.ConfigManager.constructor` | src/config_manager.py:7-24 | the settings are the defaults merged with the saved file |
| `Settings.ConfigManager.Load` | src/config_manager.py:26-35 | the settings become the merge of the old ones with the saved file |
| `Settings.ConfigManager.Get` | src/config_manager.py:43-44 | the current value, else the default, else None; every default key always reads a value |
| `Settings.ConfigManager.Set` | src/config_manager.py:46-48 | the key then reads back the value and no other key changes |
| `Settings.FreshSettingsAreDefaults` | src/config_manager.py:15-24 | without a saved file the settings are exactly the defaults |
| `GameClock.Seconds` | src/engine.py:25-28 | whole seconds rounded down, as `// 1000` |
| `GameClock.Engine.constructor` | src/engine.py:6-10 | not started, no end, not running |
| `GameClock.Engine.Start` | src/engine.py:12-16 | running from `now` with no end; the duration at `t` is then `(t - now) // 1000` |
| `GameClock.Engine.Stop` | src/engine.py:18-20 | stopped at `now` with the start kept; the duration is then `(now - start) // 1000`, or 0 without a start or for a falsy end tick of 0 |
| `GameClock.Engine.GameDuration` | src/engine.py:22-29 | 0 before any start; the elapsed seconds while running; the seconds between start and a non-zero end afterwards; 0 otherwise |
| `GameClock.Engine.DurationMonotone` | src/engine.py:25-26 | a running clock never goes backwards |
| `GameClock.Winner` | src/engine.py:34-43 | None iff the game is not over; '1-0' is white, '0-1' is black, and anything else is a draw |
| `Material.PieceValue` | main.py:23 | the king alone is worth 0, and no piece more than 9 |
| `Material.SquarePoints` | main.py:26-28 | a square counts iff it holds a non-king piece of the player's colour, and then exactly that piece's value |
| `Material.MaterialOf` | main.py:25-29 | at most 9 points per square |
| `Material.CountMaterial` | main.py:22-30 | the loop's sum is the material of the player's colour: P1 N3 B3 R5 Q9, kings and the opponent not counted |
| `Material.MaterialUpdate` | main.py:26-29 | replacing one square changes the count by the difference of the two squares' points |
| `Material.PlaceOwnPiece` | main.py:26-29 | a non-king piece of the counted colour on an empty square adds its value |
| `Material.PlaceUncountedPiece` | main.py:26-29 | an opponent piece or a king never changes the count |
| `Material.MaterialConcat` | main.py:25-29 | the count over two runs of squares is the sum of the counts |
| `Material.BackRankMaterial` | main.py:22-30 | a back rank is worth 31 to its own side and 0 to the other |
| `Material.StartingMaterial` | main.py:22-30 | each side starts with 39 points |
| `Sounds.MoveAction` | main.py:33-38 | a move onto an occupied square is a capture, any other is a move |
| `Sounds.ActionSound` | main.py:41-56 | no sound iff the action is unknown; a move plays `pawn_move`, `king_move` or `move` by piece; every other known action plays itself |
| `Sounds.SoundIgnoresPieceExceptOnMove` | main.py:41-56 | only a plain move looks at the moving piece |
| `Sounds.MoveAlwaysSounds` | main.py:33-56 | every played move makes a sound, which is `capture` iff the target was occupied |
| `Replay.ToggledSpeed` | main.py:454-456 | 1000 ms iff the speed was at most 200 ms, else 200 ms |
| `Replay.ToggleAlternates` | main.py:454-456 | on the two speeds, the button alternates between them and undoes itself |
| `Replay.ReplayPlayer.constructor` | main.py:225-229 | no moves, the cursor at 0, paused, 1000 ms per move, timer at 0, empty board |
| `Replay.ReplayPlayer.Load` | main.py:366-370 | the chosen game, an empty board, the cursor at 0, paused, timer at 0 |
| `Replay.ReplayPlayer.Tick` | main.py:286-295 | paused: nothing; before the period: the timer grows; at the period: the timer restarts and the next move is played, or playback stops at the end; the board always holds the first `index` moves |
| `Replay.ReplayPlayer.StepForward` | main.py:408-413 | one move forward and paused when one is left, else nothing (the right arrow, and the > button at lines 444-448); keeps the board in step |
| `Replay.ReplayPlayer.StepBack` | main.py:414-419 | one move back and paused when one was played, else nothing (the left arrow, and the < button at lines 440-441); keeps the board in step |
| `Replay.ReplayPlayer.TogglePlay` | main.py:420-421 | playback flips between playing and paused (space, and the play button at lines 442-443) |
| `Replay.ReplayPlayer.Rewind` | main.py:437-439 | the loop ends with the cursor at 0, an empty board and playback paused |
| `Replay.ReplayPlayer.FastForward` | main.py:449-453 | the loop ends with every move played and playback paused |
| `Replay.ReplayPlayer.ToggleSpeed` | main.py:454-456 | the speed becomes `ToggledSpeed` of the old one |
| `BoardClicks.Mirror` | main.py:742 | maps 0..7 onto 0..7 and nothing else into it |
| `BoardClicks.MirrorInvolution` | main.py:742 | flipping twice gives back the coordinate |
| `BoardClicks.ClickedSquare` | main.py:738-744 | a square iff the click is inside the 640-pixel board, and then one of 0..63 |
| `BoardClicks.FlippedClickRotates` | main.py:738-744 | on a flipped board the same click gives square `63 - s` |
| `BoardClicks.ClickOnDrawnSquare` | main.py:738-744 | any pixel of square `s` as an unflipped board lays it out (file `s % 8`, row `7 - s / 8`) selects `s` |

## Left out

- Scoring.HighscoreIsKept: proved only for a scores file of at most 10 records. A hand-edited file with more records can push a highscore out, because `check_is_highscore` compares against every stored record but only 10 are kept.
- Skins.ScanKeepsDefault: the wooden default holds only when no loadable folder is called `default`. Such a folder replaces the built-in entry, as the Python dict update does.
- Skins.IsAlnum: Python's `str.isalnum` is modelled exactly on the Latin-1 range only. Every character above U+00FF counts as not alphanumeric, because Python's full Unicode tables are not part of this model.
- TextBox.PrintableChar: Python's `str.isprintable` is modelled on the Latin-1 range only. Every character above U+00FF counts as printable.
- Skins.JoinPath: `os.path.join` is modelled with the POSIX separator "/".
- Skins.WriteSkinFolder: folder names compare case-sensitively, as on a POSIX file system. On a case-insensitive one (the Windows default, and macOS by default), saving "blue" after "Blue" exists overwrites `Blue/config.json` and reports "blue", which then reads back as the default skin. `WrittenSkinIsFound` and `SaveNewSkin`'s read-back do not cover that case.
- Skins.WriteSkinFolder: `os.listdir` promises no order, so the model chooses where a new folder goes: last in the listing. The key order after a save follows from that choice.
- Tutorial.TutorialManager.ArrowMove: it does not decode square names. `chess.parse_square` belongs to python-chess, so any `arrow` entry that is not a list of at least two texts gives `BadArrow`, the exception the code would raise.
- Settings.ConfigManager.Set: the file write of `save` is left out (file I/O).
- The random choice in `get_random_puzzle` is left open. `GetRandomPuzzle` may return any element.
- Scoring.SaveScore: `save_score` appends to a local list, sorts it in place and truncates it. The model writes these steps as pure functions on sequences (`SortDesc`, a prefix), because the list is local and no other object sees it change; only the file that is written matters.
- Scoring.LoadScores: stored records are taken to carry a `score`. A record without one makes the sort at src/scoring.py:34 raise `KeyError` outside the `try` at lines 30-33, and that error escapes `load_scores`, `save_score` and `check_is_highscore`; the model has no such record.
- Reading and writing the JSON files (`scores.json`, `settings.json`, puzzles, lessons, skin `config.json`) and PGN games is left out. Their parsed contents are parameters: `ScoresFile`, `SavedSettings`, the constructors' lists, and `DirEntry`.
- The existence check of the skins folder (src/skin_manager.py:8, 25) is left out. The constructor creates the folder, so the check never fails.
- Turning UCI text into python-chess moves (`chess.Move.from_uci`) is left out. So are move legality, game-over and `board.result()`. The model returns the UCI text, and takes game-over and the result string as inputs.
- The pygame tick counter is the parameter `now`.
- Sounds.ActionSound: the player that plays the sound (src/sound.py) is not part of this model. It yields the sound's name.
- `Replay.ReplayPlayer.Load` models the state after a game is chosen. Escape leaving the replay screen (main.py:422-424) restarts the engine and changes screens, and both are left out.
- The sound of each replay step and the move animation are left out.
- The move-search engine (`get_best_move`, `evaluate_board`) is imported by `main.py`, but `src/ai.py` only holds a random mover over python-chess. That is left out: there is no search code to model.
- Drawing (`DisplayBoard`, `LeaderboardView`, `TextInput.draw`, the screens of `main.py`), audio synthesis and image generation are left out. They are pygame output and floating point.
- The call sites in `main.py` that pass other arguments than the shown definitions take are left out. Examples: `calcular_pontuacao` with four arguments, and `Engine.start(time_limit)`. The model follows the definitions.
