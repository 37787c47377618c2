# kattoBot dice engine in Dafny

kattoBot is a chat bot for tabletop games. Its core is a dice-notation engine in `src/dice.py`:
- A command such as `2d6 + 3 [fire]` is split into bracketed comments, `NdM` dice terms and the text between them.
- Every dice term is rolled, either plainly or with *critical rerolls*. With rerolls, a die showing its top face is kept but does not count toward the `N` dice.
- The arithmetic is then evaluated, either once with each term replaced by its sum (*sum mode*) or once per difficulty level with each term replaced by its successes at that level (*success mode*).
- The reply shows the rolled dice, the result, the successes per level and the number of botches (dice showing 1).

Beside the engine, the model covers:
- the message chunking of `src/utils.py`;
- the in-memory `Game` and `Character` tables;
- the pure name-resolution rule `get_user` and the `NdM` argument check of the `!rs` command in `kattoBot.py`.

Modules, one concept each:

| file | module | what it models |
|---|---|---|
| `common.dfy` | `Common` | `Option`, `Result`, and the exceptions the code can raise (`ValueError`, `IndexError`, `SyntaxError`), plus `OutOfDraws` when the injected randomness runs out |
| `strings.dfy` | `Strings` | `str(int)`, `int(str)` on digits, `"sep".join`, `str.split(sep)`, and deleting spaces |
| `segments.dfy` | `Segments` | `re.split("(\[*[^\[\]]*\]\|\d+d\d+)", s)` with empty parts dropped. It is modelled exactly: leftmost match, the first alternative tried before the second, capturing group kept |
| `dice.dfy` | `Dice` | the `Dice` class: parsing `NdM`, the drawing loop, the face histogram, the success ladder, the sort and the rendering |
| `arith.dfy` | `Arith` | the part of `eval` the engine needs: integer `+`/`-` over decimal literals |
| `roll.dfy` | `Roller` | the module function `roll(s, successes)` |
| `utils.dfy` | `Utils` | `split_long_message` |
| `tables.dfy` | `Tables` | an insertion-ordered `dict` with string keys, as a list of pairs with distinct keys |
| `character.dfy` | `Character` | the `Character` class |
| `game.dfy` | `Game` | the `Game` class |
| `katto_bot.dfy` | `KattoBot` | `get_user` and the `!rs` argument check |

Modelling choices:
- **Randomness.** `random.randint(1, m)` draws from an injected sequence of raw numbers: a raw draw `x` gives `1 + x % m`.
  - When the sequence runs out before enough dice count, the roll ends with `OutOfDraws`. This is the only way the model bounds the rerolling loop; the code itself loops until it gets enough non-critical dice.
  - With no faces (`m = 0`), `randint(1, 0)` raises `ValueError`, and so does the model.
- **Classes.** The classes are Dafny classes whose methods update their fields.
  - `Dice.roll` keeps its loop: `Dice.DrawLoop` draws and fills the buckets, and `Dice.Dice.Roll` reverses them, builds the ladder and sorts.
  - Each of these is proved against functions on values (`Drawn`, `Histogram`, `Ladder`, `SortDesc`), and the lemmas about those functions state what the code promises.
  - The loops of `roll` (over the parts, over the levels, over the copy `tbc`) and of `split_long_message` are methods with loop invariants, proved against recursive specification functions.

Behaviour of the code worth noting:
- Success mode evaluates `int((m_max + 1) / 2)` levels: the floor, not the ceiling.
- The `**Result:**` field shows only the first level's value.
- The reply carries the markdown markers (`**Roll:**`, `**Result:**`, `**Successes:**`, `**Botches:**`).
- A die showing 1 renders as a botch even on a one-faced die, because that test comes first.

## Model

| member | source | states |
|---|---|---|
| Dice.Dice.constructor | src/dice.py:7-16 | the object names `n` dice of `m` faces, as read off the whole `NdM` text split at `d`. The fields are empty until the roll |
| Dice.DiceTermParts | src/dice.py:10-12 | a whole `\d+d\d+` text splits at its one `d` into exactly two non-empty digit strings |
| Dice.BaseRoundTrip | src/dice.py:36 | the base form `"NdM"` is a whole dice term, and parsing it gives back `n` and `m` |
| Dice.Drawn | src/dice.py:60-66 | when the loop ends, exactly `n` of the values drawn counted toward the dice, and no more draws were used than were available |
| Dice.RandInt | src/dice.py:62 | `randint(1, m)` lies in `1..m` |
| Dice.DrawnSpec | src/dice.py:60-66 | the roll succeeds exactly when no dice are asked for, or the die has faces and the draws supply `n` counting dice. Then the values are the first draws in order, exactly `n` of them count, and the last one counts. Otherwise the error is `ValueError` when there are no faces and `OutOfDraws` otherwise |
| Dice.PlainRoll | src/dice.py:60-66 | without rerolls a roll draws exactly `n` values, each in `1..m` and equal to its draw's face. It succeeds exactly when `n = 0`, or the die has faces and there are `n` draws |
| Dice.ExplodingRoll | src/dice.py:61-66 | with rerolls, the number of values equals `n` plus the number of top faces, so the non-critical values number exactly `n`. Every value is a face of the die |
| Dice.DrawnInRange | src/dice.py:62 | whatever the mode, every value drawn is in `1..m` |
| Dice.SumBounds | src/dice.py:42 | a pool of dice each in `1..m` sums to between its size and its size times `m` |
| Dice.DrawLoop | src/dice.py:58-66 | the `while` loop yields exactly the specified values, or the same error. Its buckets count each face `j + 1` among the drawn values |
| Dice.Histogram | src/dice.py:59-68 | one counter per face, as `[0] * m_faces` |
| Dice.ReversedBuckets | src/dice.py:68 | reversing the buckets gives the histogram with the top face first |
| Dice.HistogramTotal | src/dice.py:59-68 | the histogram entries sum to the number of dice rolled |
| Dice.CumulativeCount | src/dice.py:70-72 | the running total of the reversed histogram at level `k` is the number of dice showing `m - k` or more |
| Dice.Ladder | src/dice.py:70-73 | one success count per face level |
| Dice.LadderShape | src/dice.py:70-73 | the ladder has one entry per face, every entry is at least the critical count, and it never decreases |
| Dice.LadderOfRoll | src/dice.py:70-73 | at level `k`, the successes are `max(#dice showing m, #dice showing at least m - k - #dice showing 1)` |
| Dice.SortDesc | src/dice.py:74 | sorting keeps the number of values |
| Dice.InsertSorted | src/dice.py:74 | inserting into a descending list keeps it descending and adds exactly that value |
| Dice.SortDescSpec | src/dice.py:74 | `sorted(..., reverse=True)` gives a descending permutation of the drawn values |
| Dice.Dice.Roll | src/dice.py:46-74 | on success the result is the drawn values sorted descending, `freq` is the histogram, and the ladder is derived from `freq`. On failure the error is the one the roll specification names |
| Dice.FormatDie | src/dice.py:19-26 | a 1 is struck through and bold; a 1 or the top face is bold |
| Dice.FormatDieMarkup | src/dice.py:19-26 | stripped of markers a die reads as its value. It is struck through exactly when it shows 1, and bold exactly when it shows 1 or the top face |
| Dice.FormatAll | src/dice.py:38 | one rendered die per value, in order |
| Dice.Render | src/dice.py:28-44 | the base form is a whole `\d+d\d+` term, and the full form opens with `[` |
| Dice.RenderForms | src/dice.py:35-44 | the full form opens with `[`, the base form and `: `, and ends with `]`. `add_sum` only appends a space and the sum of the dice |
| Segments.Span | src/dice.py:84 | a greedy run of one character class stops at the first character outside it |
| Segments.LiteralEnd | src/dice.py:84 | a bracketed-comment match ends just after a `]` |
| Segments.TermEnd | src/dice.py:84 | a dice-term match spans at least `digit d digit` |
| Segments.MatchAt | src/dice.py:84 | a match is a comment or a dice term, and is never empty |
| Segments.Split | src/dice.py:84 | no part of the split is empty |
| Segments.SplitRoundTrip | src/dice.py:84 | concatenating the parts of the split gives back the command: no character is lost or added |
| Segments.SplitWellFormed | src/dice.py:84-95 | every part is non-empty, and the regex tests of the loop recognise exactly what the split matched: comments as comments, whole dice terms as dice terms, and glue as neither |
| Roller.PartsTagged | src/dice.py:90-97 | each part's text carries its tag, and a dice term carries the `n` and `m` that `Dice(i)` reads |
| Roller.RollTerm | src/dice.py:97-100 | a rolled term keeps the `n` and `m` of its text |
| Roller.RollTermConsistent | src/dice.py:97 | a rolled term is as `Dice.roll` leaves it: values sorted descending, each a face, with the histogram and ladder derived from them |
| Roller.RollPart | src/dice.py:97-100 | building and rolling a `Dice` object gives exactly the specified rolled term and leaves the unused draws |
| Roller.Pass | src/dice.py:91-100 | one pass of the loop on a part prints what the specification prints and extends `c` as it does |
| Roller.Advance | src/dice.py:90-100 | after pass `idx` the printing list holds the printed first `idx + 1` parts and the original rest. An error is the error of the whole loop |
| Roller.ScanParts | src/dice.py:89-100 | the loop over the parts gives the printed list, `c` and `m_max` of the specification, or its error |
| Roller.StepFacts | src/dice.py:90-100 | one pass appends one printed part. Unless the part is a comment, it also appends one entry of `c` standing for the part and updates `m_max` to the larger face count |
| Roller.ScanShown | src/dice.py:90-99 | the loop prints one entry per part in order: comments and text as they are, dice terms as their rolls, with the sum only in sum mode |
| Roller.ScanItems | src/dice.py:90-100 | `c` holds exactly the parts that are not comments, in order: text as itself, dice terms as consistent rolls of their `n` and `m`. `m_max` is the largest face count rolled |
| Roller.MaxFacesBound | src/dice.py:98 | `m_max` bounds every term's faces and is attained by a term, or is 0 |
| Roller.ScanStaysFailed | src/dice.py:97 | once a roll raises, the loop's outcome is that error |
| Roller.SumTextPieces | src/dice.py:104-106 | the text sum mode evaluates is spelled by the glue's pieces, each term replaced by the sum of its dice |
| Roller.SumModeValue | src/dice.py:103-107 | in sum mode, for any glue of blanks, signs and numbers between the terms, `res` is one value: the signed sum of the glue's numbers and the terms' totals, or a syntax error when signs and numbers do not form an expression |
| Roller.LevelValue | src/dice.py:109-114 | at level `i`, the text with each term replaced by its successes at that level evaluates to the signed sum of the glue's numbers and those successes, or to a syntax error |
| Roller.SuccessModeValues | src/dice.py:108-115 | every level in `res` has an entry in every term's ladder, and every `res[i]` is the signed sum at level `i` |
| Roller.ScanRendered | src/dice.py:96-99 | the dice printed for a term are the values of the entry appended to `c` for it (the one object `dd`), with the sum exactly in sum mode |
| Arith.EvalSpelled | src/dice.py:106 | evaluating numbers joined by ` + ` and ` - ` gives their signed sum |
| Arith.EvalNumber | src/dice.py:106 | evaluating a printed number gives the number |
| Arith.Eval | src/dice.py:106 | evaluation fails only with a syntax error |
| Arith.FoldSpec | src/dice.py:106 | evaluating tokens left to right gives the signed sum of the numbers (each signed by the operators before it) exactly when the tokens are well shaped, and a syntax error otherwise |
| Arith.EvalSpec | src/dice.py:106 | `eval` of any text: a syntax error where the tokenizer stops or the tokens are not well shaped, otherwise the signed sum of its numbers |
| Arith.LexPieces | src/dice.py:106 | a text spelled from blanks, signs and decimal numbers, no number directly after another, tokenizes into exactly those signs and numbers |
| Arith.EvalPieces | src/dice.py:106 | such a text evaluates to the signed sum of its numbers, or to a syntax error when its tokens are not well shaped |
| Arith.DanglingIsError | src/dice.py:106 | an empty text, or one ending in an operator, is a syntax error |
| Roller.LevelPiecesOf | src/dice.py:110-114 | the loop over the copy `tbc` yields the level's pieces, or `IndexError` when a term has no entry at that level |
| Roller.PiecesOk | src/dice.py:114 | a level's pieces exist exactly when every term has a ladder entry at that level. Otherwise the error is `IndexError` |
| Roller.Levels | src/dice.py:109-115 | the loop over levels yields exactly the specified level values, or the first error |
| Roller.LevelsShape | src/dice.py:109-115 | evaluated levels give one value per level, and only when every term has that many ladder entries |
| Roller.SuccessLevels | src/dice.py:109-115 | success mode gives `int((m_max + 1) / 2)` results, and every term has at least that many faces |
| Roller.Results | src/dice.py:103-115 | in sum mode a successful evaluation gives exactly one value |
| Roller.Botches | src/dice.py:118 | the only error is an `IndexError`, from a term with no faces |
| Roller.BotchesCount | src/dice.py:118 | the botch count is the number of 1s over all terms. It fails, with `IndexError`, exactly when a term has no faces |
| Roller.FormatKeeps | src/dice.py:121-123 | the formatted roll text holds the characters of the printed parts, in order, without their spaces, and never two spaces in a row |
| Roller.Format | src/dice.py:121-123 | the formatted roll text has no two adjacent spaces |
| Roller.CollapseKeeps | src/dice.py:123 | collapsing runs of spaces loses no other character |
| Roller.CollapseNoDouble | src/dice.py:123 | after collapsing no two spaces are adjacent |
| Roller.CollapseTwice | src/dice.py:123 | collapsing is idempotent |
| Roller.PadKeeps | src/dice.py:122 | padding the operators adds spaces and nothing else |
| Roller.NoDiceNoSuccesses | src/dice.py:109-124 | success mode on a command without a dice term fails with `IndexError` at `res[0]` |
| Roller.NoTermScan | src/dice.py:89-100 | without dice terms the loop only collects text and `m_max` stays 0 |
| Roller.Report | src/dice.py:124-131 | a reply starts with `**Roll:** ` |
| Roller.Roll | src/dice.py:77-131 | `roll(s, successes)` returns exactly the specified report, or raises the specified error |
| Strings.SplitOn | src/utils.py:6 | `str.split(sep)`: no part contains the separator, and joining the parts with it gives back the text |
| Strings.SplitJoin | src/utils.py:6-9 | splitting a join of separator-free parts gives back the parts |
| Strings.NatToStringRoundTrip | src/dice.py:11-12 | `int(str(n)) == n` |
| Utils.ChunkSizes | src/utils.py:8-9 | every chunk holds at most five lines, all but the last exactly five. A message without a newline is its own only chunk |
| Utils.SplitLongMessage | src/utils.py:4-10 | there are `ceil(lines / 5)` chunks, chunk `i` is lines `5i..5i+5` joined by newlines, and joining the chunks gives back the message. It also carries the bounds of `ChunkSizes` |
| Tables.Lookup | src/character.py:10 | a key has a value exactly when it is a key of the dict |
| Tables.Put | src/game.py:23 | `d[k] = v` adds at most one entry and removes none |
| Tables.PutLookup | src/game.py:23 | after `d[k] = v`, `k` maps to `v` and every other key keeps its value |
| Tables.PutKeys | src/game.py:23 | an existing key keeps its place, and a new key goes last |
| Tables.PutDistinct | src/game.py:23 | a dict stays a dict after `d[k] = v` |
| Tables.Update | src/character.py:10 | `d.update(e)` removes no entry |
| Tables.UpdateLookup | src/character.py:10 | after `d.update(e)` a key of `e` holds `e`'s value, and any other key holds its old value |
| Tables.UpdateKeys | src/character.py:10 | `d.update(e)` keeps keys distinct and keeps the old keys first, in order |
| Tables.ListingLines | src/game.py:14 | a listing of pairs without newlines splits back into one `key:value` line per pair, in order |
| Character.Character.constructor | src/character.py:2-4 | a new character has the given name and no stats |
| Character.Character.ToString | src/character.py:6-7 | `str(c)` is the name |
| Character.Character.SetStats | src/character.py:9-10 | the stats become the merge. Keys of `d` take `d`'s values, others keep theirs, and old keys stay first |
| Character.Character.GetStats | src/character.py:12-14 | the text starts with `**Stats:**` and a newline, is exactly that with no stats, and otherwise has one `key:value` line per stat |
| Game.Game.constructor | src/game.py:9-11 | a new game has no DM and no characters |
| Game.Game.GetCharacters | src/game.py:13-15 | no characters give `""`. Otherwise there is one `player:name` line per character, in insertion order |
| Game.Game.CreateCharacter | src/game.py:17-23 | a player who has a character gets the error naming it, and the table is unchanged. Otherwise the player is appended with a fresh character of that name and no stats. No other player's entry changes |
| Game.PutNew | src/game.py:23 | inserting a new key appends it |
| KattoBot.GetUser | kattoBot.py:44-58 | a user returned is one of the bot's users |
| KattoBot.MatchingCount | kattoBot.py:46-48 | each filter keeps one user per matching position |
| KattoBot.GetUserSpec | kattoBot.py:44-58 | the exact stage is used whenever some user has exactly the name. The answer is the one user the stage accepts. "No matches" comes exactly when the stage accepts none, and then no name even contains `name`. Several accepted users give the error listing every candidate |
| KattoBot.MessagesDiffer | kattoBot.py:50-58 | the two error messages are distinct |
| KattoBot.Strip | kattoBot.py:116 | the stripped text neither starts nor ends with white space |
| KattoBot.StripPadded | kattoBot.py:116 | stripping removes exactly the white space around a text |
| KattoBot.ParseRollCommand | kattoBot.py:116-123 | the command is rejected exactly when the stripped text is not a whole `\d+d\d+`, and the error quotes the stripped text. When accepted, `n` and `m` are the digit values on either side of the `d` |
| KattoBot.CommandAccepted | kattoBot.py:116-123 | two digit strings around a `d`, padded with white space, are accepted and read as their values |
| KattoBot.CommandRoundTrip | kattoBot.py:116-123 | the command printed from `n` and `m` reads back as `n` and `m` |

## Left out

- Discord plumbing in `kattoBot.py` is not modelled: bot set-up, `on_ready`, `run`, `send_to_user`, the error handler and the async command bodies. It is network I/O.
- `random.randint` is replaced by an injected sequence of raw draws, as described above.
  - The model does not capture that the code may loop forever with critical rerolls on a one-faced die.
  - It also does not capture any probability distribution.
- `eval` is modelled only for integer `+`/`-`, with unary signs, over decimal literals, spaces and tabs. Any other Python (multiplication, parentheses, names) is a `SyntaxError` here, where Python might compute a value.
- `\d`, `\w` and `\s` in the regular expressions of `roll` are read as their ASCII sets. Python also accepts other Unicode digits and letters there.
- KattoBot.ParseRollCommand: the `\d+d\d+` test at `kattoBot.py:117` and `int()` both accept any Unicode decimal digit, so the code reads `٣d٦` as 3 dice of 6 faces. The model reads ASCII digits only and rejects that command.
- Dice.Dice.Roll: `[0] * m_faces` at `src/dice.py:59` raises `OverflowError` once `m` reaches 2^63, and `MemoryError` well below that. The model has unbounded lists and rolls a die of any size.
- Dice.ParseBase: CPython's `int()` refuses a decimal text of more than 4300 digits with `ValueError` (`src/dice.py:11-12`). The model reads a number of any length.
- Roller.LevelCount: `int((m_max + 1) / 2)` at `src/dice.py:109` divides in floating point. The model takes the exact floor, which can differ once `m_max` exceeds 2^53.
- Roller.SumModeValue, Roller.LevelValue and Roller.SuccessModeValues are stated for glue made of blanks, signs and decimal numbers written without leading zeros, with no number of the glue directly touching a term. In `1d6[x]5` the comment is dropped from `c`, so the term's total and the `5` join into one number; that text, and any other glue (letters, `007`, parentheses), is covered only by `Arith.EvalSpec`, which states `eval` of the joined text whatever it holds.
- Dice.Dice.constructor: the constructor does not call `roll`. The caller runs `Roll` next, as `RollPart` does, because a Dafny constructor cannot report the roll's error.
- Dice.Dice.Roll: on error the contract states only the error and the `rerollCriticals` field, not what the half-finished roll leaves in `result` and `freq`.
- Roller.Roll: the list `c` holds snapshots of the rolled `Dice` objects as values. Nothing changes those objects after their roll, so no aliasing is lost.
- Python `dict` keys and values are strings in `Tables`. `Game` stores `Character` objects and lists them by `str(c)`.
- `KattoBot.GetUserSpec` works over a list of `User` values (an id and a name) standing in for the bot's user objects.
- Three calls in the repository name functions that do not exist or pass the wrong arguments. The model does not follow them:
  - `kattoBot.py:97` calls `dice.roll` with one argument;
  - `kattoBot.py:124` calls `dice.format_roll_ndm_successes`;
  - `test/test_dice.py` calls `dice.roll_ndm`.

  The test's expectations are stated about `Dice.roll` instead, in `PlainRoll`, `ExplodingRoll` and `SortDescSpec`.
- KattoBot.ParseRollCommand: only the check and the parse (`kattoBot.py:116-123`) are modelled; rolling and sending the reply are not.
- `GameException` and `KattoBotException` are modelled as error messages (`Option<string>`, `Result<_, string>`) rather than exception objects.
