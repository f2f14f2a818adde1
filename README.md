# slope-runner: leaderboard pipeline and game tick, in Dafny

This project models the two pieces of logic in slope-runner, a browser skiing game.

1. **The leaderboard update.** It exists twice, once in the development server (`server.ts`) and once in the deployable API handler (`src/api/updateLeaderboard.ts`). Each checks a submitted `{name, score}` and reads the stored `name,score` lines. It then adds the new entry, stable-sorts highest score first, keeps ten entries, writes them back and answers with a status code. The pipeline is modelled once, as pure functions over `Entry(name, score)`:
   - `JsText` holds the JavaScript string operations it needs: `trim`, `split` on one character, `join`, `parseInt(_, 10)`, and integer-to-text.
   - `Leaderboard` holds parse, sort, merge and format.
   - `Handlers` holds the two request handlers. Each is a function from the request method, decoded body, stored file and write outcome to a response plus the text written. The development server's handler also takes the URL. The API function takes none, because it never looks at the route.
2. **The game tick.** The game state in `src/main.ts` is modelled as the class `Game.SkiGame`. Its fields are the score, the game-over flag, speed, frame counter, obstacles, and the skier's position and tilt.
   - `Tick` is one animation frame.
   - `Reset` is the restart button.
   - `SpawnObstacle` and `HandleGameOver` are the helpers of the same names.
   - Key state, the collision test's answer and the two random draws of a spawn are arguments.

The main results:
- The board never holds more than ten entries and is ordered highest score first.
- The sort is a stable sort. Any ordered result that keeps each score's entries in input order equals `SortDesc` (`StableSortIsSortDesc`).
- The new entry lands at the position given by the number of stored entries scoring at least as much. It survives exactly when that number is below ten.
- Formatting then parsing gives back the board.
- Across frames, the class invariant keeps:
  - `frameCount` equal to `score` while playing;
  - speed equal to `0.2 + 0.0001 * frameCount`;
  - x strictly between -8.15 and 8.15;
  - obstacles at least 12 units apart and never more than six alive.

## Model

| member | source | states |
|---|---|---|
| `JsText.TrimStart` | server.ts:74 | the result is a suffix of the input; everything cut off is white space or a line terminator; the result does not start with one |
| `JsText.TrimEnd` | server.ts:74 | the result is a prefix of the input; everything cut off is white space; the result does not end with white space |
| `JsText.Trim` | server.ts:74 | the definition of `trim()`: `TrimEnd` after `TrimStart`; what it yields is stated by `JsText.TrimEnds`, `JsText.TrimBlank` and `JsText.TrimUnchanged` |
| `JsText.TrimEnds` | server.ts:74 | the trimmed text is no longer than the input and neither starts nor ends with white space or a line terminator |
| `JsText.TrimBlank` | server.ts:76 | `trim()` gives `""` exactly when every character is white space or a line terminator |
| `JsText.TrimUnchanged` | server.ts:74 | a text that neither starts nor ends with white space is left as it is by `trim()` |
| `JsText.Split` | server.ts:75 | `split(sep)` yields at least one piece, no piece holds `sep`, and joining the pieces with `sep` gives back the input |
| `JsText.SplitJoin` | server.ts:75 | splitting a join of separator-free pieces gives back exactly those pieces |
| `JsText.Join` | server.ts:90 | the definition of `join(sep)`: pieces with `sep` between them and none at the end; `JsText.JoinEnds` states its ends and `JsText.SplitJoin` that `split` undoes it |
| `JsText.JoinEnds` | server.ts:90 | a join starts with its first piece and ends with its last |
| `JsText.NatText` | server.ts:90 | decimal text of a natural number: non-empty digits, no leading zero, denoting the number |
| `JsText.IntText` | server.ts:90 | text of an integer: non-empty, starting with `-` exactly for negatives, made only of `-` and digits, ending in a digit; `JsText.IntTextDenotes` fixes the digits |
| `JsText.IntTextDenotes` | server.ts:90 | after the `-` of a negative, the text is the decimal text of the magnitude: only digits, no leading zero, denoting the magnitude. So each integer has exactly one text |
| `JsText.LeadingDigits` | server.ts:79 | the longest prefix of digits, followed by a non-digit or the end |
| `JsText.ParseInt` | server.ts:79 | a text holding no digit at all parses to NaN; the lemmas below state the value of every other text |
| `JsText.ParseIntSkipsSpace` | server.ts:79 | leading white space and line terminators are skipped: the parse of `ws + x` is that of `x` when `x` does not start with white space |
| `JsText.ParseIntLeadingInteger` | server.ts:79 | white space, a non-empty run of digits, then nothing or a non-digit: the result is that run's decimal value |
| `JsText.ParseIntLeadingSigned` | server.ts:79 | the same after a `+` or `-` sign: the run's value, negated after `-` |
| `JsText.ParseIntNoInteger` | server.ts:79 | when no digit follows the white space and the optional sign, the result is NaN |
| `JsText.ParseIntText` | server.ts:79 | `parseInt` of an integer's text followed by any non-digit text gives back that integer |
| `Leaderboard.ScoreOf` | server.ts:79 | with the `or 0` fallback, a field that is empty or starts with a character no number can begin with (the text `undefined`, say) scores 0 |
| `Leaderboard.ScoreOfLeadingInteger` | server.ts:79 | a field of white space, an optional sign, a run of digits, then nothing or a non-digit scores that run's value, negated after `-` |
| `Leaderboard.ScoreOfNoInteger` | server.ts:79 | a field in which no digit follows the white space and the optional sign scores 0 |
| `Leaderboard.ParseLine` | server.ts:78-79 | the name is a prefix of the line and contains no comma |
| `Leaderboard.LineWithoutComma` | server.ts:78-79 | a line with no comma has an undefined second field, which parseInt reads as NaN and the `or 0` fallback turns into 0; the whole line is the name |
| `Leaderboard.LineFields` | server.ts:78-79 | the name is the text before the first comma, and the score comes from the second field alone, even when a third field follows |
| `Leaderboard.NonBlank` | server.ts:76 | a line is kept exactly when it is not blank, and the result is no longer than the input |
| `Leaderboard.NonBlankKeepsAll` | server.ts:76 | when no line is blank, the filter keeps every line |
| `Leaderboard.NonBlankAppend` | server.ts:76 | filtering a concatenation is the concatenation of the filtered parts, so the kept lines stay in their order and repeated lines stay repeated |
| `Leaderboard.Parse` | server.ts:73-80 | no parsed name contains a comma or a newline |
| `Leaderboard.ParseEmpty` | src/api/updateLeaderboard.ts:43-58 | empty stored text (also what a missing file becomes) gives no entries |
| `Leaderboard.FormatEntry` | server.ts:90 | the definition of one line, the name, a comma and the score's text; `Leaderboard.EntryLine` states that it is one non-blank line that reads back as the entry |
| `Leaderboard.Format` | server.ts:90 | the text is empty exactly when the board is |
| `Leaderboard.EntryLine` | server.ts:90 | a formatted entry whose name has no comma or newline is one non-blank line that reads back as the same entry |
| `Leaderboard.FormatStart` | server.ts:90 | a board's text starts with the first name followed by a comma, so not with white space when the first name does not |
| `Leaderboard.FormatEnd` | server.ts:90 | a board's text ends with a digit (the last score's final one), never with white space |
| `Leaderboard.FormatTrimmed` | server.ts:74 | the text of a storable board is unchanged by `trim()` |
| `Leaderboard.FormatLinesReadBack` | server.ts:75-80 | splitting a storable board's text and dropping blank lines gives exactly its formatted lines, each of which reads back as its entry |
| `Leaderboard.ParseFormat` | server.ts:73-90 | formatting then parsing a storable board gives back the board. Storable means no name holds `,` or `\n` and the first name does not start with white space |
| `Leaderboard.WithScoreAppend` | server.ts:84 | the entries of one score in a concatenation are those of each part, in order |
| `Leaderboard.WithScoreNone` | server.ts:84 | a list with no entry of score `v` has no entries of score `v` in its `v` slice |
| `Leaderboard.WithScoreMember` | server.ts:84 | every entry of the `v` slice is in the list and has score `v` |
| `Leaderboard.WithScoreOfFirst` | server.ts:84 | a non-empty list has at least one entry with its first entry's score |
| `Leaderboard.InsertPermutes` | server.ts:84 | inserting adds exactly the one entry: the result is the input plus `e` as a multiset |
| `Leaderboard.InsertSorted` | server.ts:84 | inserting into a descending list keeps it descending |
| `Leaderboard.InsertStable` | server.ts:84 | inserting puts the entry after all entries of equal score |
| `Leaderboard.SortDesc` | server.ts:84 | the sort keeps the length and orders by score, highest first |
| `Leaderboard.SortDescPermutes` | server.ts:84 | the sort is a permutation of its input |
| `Leaderboard.SortDescStable` | server.ts:84 | the sort is stable: the entries of each score keep their input order (ECMA-262 requires a stable `sort`) |
| `Leaderboard.SortedFirstIsHighest` | server.ts:84 | the first entry of a sorted list has the highest score |
| `Leaderboard.StableSortUnique` | server.ts:84 | two descending lists with the same entries per score, in the same order, are equal |
| `Leaderboard.StableSortIsSortDesc` | server.ts:84 | any descending, stable rearrangement of the input is exactly `SortDesc` of it, so the comparator `b.score - a.score` fixes the result |
| `Leaderboard.SortDescOfSorted` | server.ts:84 | sorting an already descending list changes nothing |
| `Leaderboard.Take` | server.ts:85 | `slice(0, n)` gives the prefix of length `min(length, n)` |
| `Leaderboard.Merge` | server.ts:83-85 | after push, sort and `slice(0, 10)`, the board has `min(n + 1, 10)` entries and is ordered highest first (the same lines are src/api/updateLeaderboard.ts:61-67) |
| `Leaderboard.MergeDrawsFrom` | server.ts:83-85 | every entry of the board comes from the stored entries or is the new one |
| `Leaderboard.CountAtLeast` | server.ts:84 | the number of entries scoring at least `v` is at most the length |
| `Leaderboard.CountAtLeastAppend` | server.ts:84 | counting is additive over concatenation |
| `Leaderboard.CountAtLeastInsert` | server.ts:84 | inserting adds one to the count exactly when the new entry scores at least `v` |
| `Leaderboard.CountAtLeastSort` | server.ts:84 | sorting does not change the count |
| `Leaderboard.CountAtLeastNone` | server.ts:84 | a list with no entry scoring at least `v` counts zero |
| `Leaderboard.CountAtLeastAll` | server.ts:84 | a list whose every entry scores at least `v` counts its length |
| `Leaderboard.InsertPosition` | server.ts:84 | in a descending list the new entry goes right after the `k` entries scoring at least as much, and those `k` come first while every later entry scores less |
| `Leaderboard.SortedCut` | server.ts:84 | in a descending list the `k` entries scoring at least `v` come first and every later one scores less |
| `Leaderboard.MergePlacement` | server.ts:83-85 | the board is the sorted stored list with the new entry inserted after the `k` stored entries scoring at least as much, cut to ten |
| `Leaderboard.TakeWithInserted` | server.ts:85 | cutting to ten keeps an entry inserted at position `k` exactly when `k < 10`, otherwise yields the first ten of the list it was inserted into |
| `Leaderboard.NewEntrySurvival` | server.ts:83-85 | the new entry survives, at position `k` after the first `k` sorted stored entries, exactly when fewer than ten stored entries score at least as much; otherwise the board is the first ten sorted stored entries |
| `Leaderboard.FullSortedBoardUnchanged` | server.ts:83-85 | a sorted ten-entry file whose scores are all at least the new score is returned unchanged |
| `Leaderboard.MergeStable` | server.ts:83-85 | among equal scores, stored entries keep file order and come before the new entry; the board holds a prefix of each score's run |
| `Leaderboard.WrittenBoardReloads` | server.ts:73-90 | the text written reads back as the board, provided the new name has no `,` or `\n` and the top name does not start with white space |
| `Handlers.Truthy` | server.ts:52 | the definition of JavaScript truthiness: false exactly for undefined, null, false, 0, NaN and the empty string; `Handlers.Submission` states what the check built on it accepts |
| `Handlers.TypeOf` | server.ts:52 | `typeof` gives `"string"` exactly for strings and `"number"` exactly for numbers, NaN included |
| `Handlers.Submission` | server.ts:51-57 | the check passes exactly for a non-empty string name and a non-zero number score; a body that is not JSON and a `null` body are told apart |
| `Handlers.ScoreCheckEdges` | server.ts:52 | score 0 is refused and every non-zero score, negative ones included, passes |
| `Handlers.Updated` | src/api/updateLeaderboard.ts:43-67 | the merged board has at most ten entries and is ordered; with no readable file it is just the new entry |
| `Handlers.ServerStatus` | server.ts:11-110 | OPTIONS gives 200; anything but POST to `/api/updateLeaderboard` gives 404; on that route an invalid body gives 400, and a `null` body or a failed write gets no reply; 200 comes exactly from OPTIONS or from a valid POST on the route whose write succeeds |
| `Handlers.ServerHandle` | server.ts:7-111 | the status follows `ServerStatus`; OPTIONS has no body and writes nothing; a write happens exactly for a valid POST on the route; on 200 `updatedScores` is the board `Updated` computes from the stored file and the new entry, and it is exactly the board written |
| `Handlers.RefusalText` | src/api/updateLeaderboard.ts:29-36 | the definition of the message each refusal throws; `Handlers.ApiHandle` states that it becomes the `error` field of the 500 reply |
| `Handlers.ApiStatus` | src/api/updateLeaderboard.ts:8-103 | 405 exactly when the method is not POST, 200 exactly for a valid body and a good write, 500 otherwise |
| `Handlers.ApiHandle` | src/api/updateLeaderboard.ts:5-104 | always replies and never with 400; 405 with no write for non-POST; a refused body gives 500 with the error text and no write; on 200 `updatedScores` equals the board written |
| `Handlers.SamePipeline` | src/api/updateLeaderboard.ts:51-77 | for a POST on the route, both handlers write the same text |
| `Game.SlopeHeight` | src/main.ts:263 | the slope surface is never below -2 and is at -2 exactly at z = 0, the start line |
| `Game.PlaceObstacle` | src/main.ts:181-186 | a tree exactly when the first draw exceeds 0.3; x in [-8, 8); 50 ahead of the skier; on the slope surface, rocks 0.4 lower |
| `Game.Cull` | src/main.ts:191-197 | filtering never lengthens the list |
| `Game.CullMembers` | src/main.ts:191-197 | an obstacle survives exactly when its z is at most the limit |
| `Game.CullAppend` | src/main.ts:191-197 | culling works element by element over a concatenation, so survivors keep their order |
| `Game.CullSpaced` | src/main.ts:191-197 | culling keeps the obstacles spaced |
| `Game.SpacedSpan` | src/main.ts:253-262 | in a spaced list of `n` obstacles the last lies at least `12 * (n - 1)` below the first |
| `Game.SpacedAppend` | src/main.ts:188 | pushing an obstacle 12 below every live one keeps the list spaced |
| `Game.LastIsLowest` | src/main.ts:188 | the last pushed obstacle is the furthest down the slope |
| `Game.FieldAfterSpawn` | src/main.ts:253-262 | a spawn frame keeps obstacles placed and spaced and keeps at most six alive |
| `Game.SpawnedCount` | src/main.ts:184-192 | obstacles at least 12 apart, lying between 50 ahead of the skier and 10 behind it, number at most six |
| `Game.FieldAfterGlide` | src/main.ts:253-262 | a frame without a spawn keeps the obstacle field valid as the skier moves on |
| `Game.DisplayScore` | src/main.ts:290 | the displayed score is `floor(score / 60)` |
| `Game.SkiGame.constructor` | src/main.ts:9-76 | the game starts in the reset state: score 0, not over, base speed, frame 0, no obstacles, and the skier at x 0, height -2 plus the slope offset, z 0, not tilted sideways (line 76) |
| `Game.SkiGame.Reset` | src/main.ts:223-236 | score 0, not over, speed 0.2, frame 0, skier at x = z = 0 with y = -2 + SLOPE_HEIGHT_OFFSET and no tilt, no obstacles |
| `Game.SkiGame.SpawnObstacle` | src/main.ts:181-198 | the new list is the old one culled at skier z + 10 followed by the new obstacle, so the newcomer is kept and nothing behind the limit remains |
| `Game.SkiGame.HandleGameOver` | src/main.ts:214-220 | sets game over and shows `floor(score / 60)` |
| `Game.SkiGame.Advance` | src/main.ts:253-263 | one more frame; a spawn exactly on multiples of 60; speed up by 0.0001; z down by the new speed; y back on the slope |
| `Game.SkiGame.Steer` | src/main.ts:266-274 | left moves -0.15 only if x > -8, otherwise right moves +0.15 only if x < 8; tilt matches; x stays strictly between -8.15 and 8.15 |
| `Game.SkiGame.Tick` | src/main.ts:249-294 | a finished game is left unchanged. Otherwise the frame advances and steers; a collision sets game over without scoring; else the score rises by one. The displayed score is `floor(score / 60)` and the invariant holds |

## Left out

- Rendering: the three.js scene, meshes, lights and camera follow are not modelled (src/main.ts:1-94, 283-292). Neither is `createRock`'s random `rotation.y`. These are side effects on a foreign library.
- `checkCollision`: its bounding-box test depends on three.js geometry, so the collision result is a `Tick` argument.
- `Math.random`: each spawn's two draws are arguments of `Tick` and `SpawnObstacle`.
- Keyboard, resize and restart-button listeners, and the DOM text updates: the held keys are `Tick` arguments, and the text shown is `Tick`'s result. `src/homeScreen.ts` is pure user interface and is not part of this model.
- `src/api/getLeaderboard.ts`: a method check followed by a raw file read. It is not part of this model.
- HTTP plumbing is not modelled: CORS headers, body chunk accumulation, the request `error` event and logging.
  - `JSON.parse` is replaced by the decoded `Body` value.
  - The file read is an `Option<string>`, where `None` means missing or unreadable.
  - The write outcome is an argument.
- Concurrency is not modelled: concurrent read-modify-write of the leaderboard file, or a second animation loop if a reset happened mid-game.
- Number precision: positions and speed are exact reals, and sin(pi/6) is exactly 0.5, so IEEE rounding is not modelled.
- Scores are unbounded integers, both submitted and stored, so fractional, infinite and beyond-2^53 numbers are not modelled. Neither is JavaScript's exponent notation for numbers of 1e21 and more.
  - Reading a stored field, `parseInt` rounds values above 2^53 to the nearest double. The model gives the exact value.
  - Writing, `${score}` writes 1e21 and above in exponent notation (`1e+21`), which the next read turns into 1. The model writes plain digits.
  - So a hand-edited line such as `a,1000000000000000000000` reads back as score 1 after one write in the real server. `ParseFormat` and `WrittenBoardReloads` prove exact round trips only because of this exclusion.
- Strings are sequences of code points, so UTF-16 surrogate pairs are not modelled.
- The tilt is an enumeration (`TiltLeft`, `Level`, `TiltRight`) standing for rotation.z = pi/12, 0 and -pi/12.
- `scores.push`, the in-place `sort` and the reassignment by `slice` act on a local array that nothing else sees. They are modelled as values (`Merge`), which loses nothing.
- Both handlers accept negative scores and names of any length. The model follows the code, not a stricter reading that would refuse negative scores or names over 20 characters.
- `Handlers.ServerStatus`: the outer `catch` at server.ts:102-106 cannot see errors thrown inside the async `end` callback. So a failed write, or a `null` body, gets no reply rather than 500. The model covers one request per call: on Node 15 and later such an unhandled rejection also stops the whole server process, so later requests are not served either.
- `Game.SkiGame.Reset`: the trailing `animate()` of `resetGame` is the caller's next `Tick`.
- `Game.SkiGame.Valid` does not claim `y == SlopeHeight(z)` before the first frame.
  - The reset height `-2 + SLOPE_HEIGHT_OFFSET` is -1, while the slope formula at z = 0 gives -2.
  - The skier drops to the slope on the first frame.
- `Leaderboard.WrittenBoardReloads`: the round trip fails when a name with leading white space reaches first place. The stored text is trimmed as a whole, so that name loses its leading white space when read back.
