# crabtype typing-practice state machine, in Dafny

This project models the core of crabtype, a terminal typing-practice program. The user sees a
prompt picked at random from a pool and types it one character at a time. A character that is not
the one under the cursor goes into an error buffer, shown in red, and the user has to erase it with
Backspace before typing on. When the cursor reaches the end of the prompt the round ends. The
program then records characters per minute and words per minute in two running-mean statistics
and shows a results screen. Enter starts a new round, and Ctrl+C exits from any screen.

Modules, one per component:

- `Events`: the terminal events, and the shared dispatch that runs before any stage sees an event (`src/game.rs`).
- `Text`: the byte length of a prompt (`str::len`), its space count, and the words that count defines.
- `Stats`: the `Stat` class whose `AddValue` keeps the last value and the incremental mean (`src/game.rs`).
- `Games`: the `Game` class, which holds the prompt pool and the two statistics (`src/game.rs`).
- `Typing`: the typing state machine on values. A `Cursor` holds `index` and `error`. `TypeChar`, `Erase`
  and `Step` say what one key does, and the lemmas state the invariants of a round (`src/round.rs`).
- `Stages`: the `RoundStage` class, whose `HandleKey` and `EndRound` update its fields in place and are
  proved against `Typing.Step`. Also the `EndStage` results screen (`src/end.rs`), the `Stage` variants,
  `HandleEvent`, and `Run`, the event loop of `src/terminal.rs`, fed a sequence of events.
- `Layout`: the integer layout of the round screen (`src/round.rs`, `draw`).

The source files come from different revisions. The model takes one shape for all of them:
- Statistics follow `src/game.rs`. `Game` holds `tpm` and `wpm`, and each `Stat` counts its own attempts
  in a one-argument `add_value`. `src/round.rs` instead uses a `stats` record and a two-argument
  `add_value`, but the mean recurrence is the same.
- The results screen carries `failed_to_save` as `src/round.rs` builds it. The key handler of
  `src/end.rs` ignores that field.

The prompt pool keeps every line of the prompt file, empty lines included, as `src/game.rs:79-81` does.

The rows of the round screen are `(text bytes + error bytes) / width + 1` (round.rs:90). That is
one more than the ceiling whenever the division is exact, and the model follows the code.

## Model

| member | source | states |
|---|---|---|
| `Events.Dispatch` | src/game.rs:24-37 | exit exactly on a key event with CONTROL and `Char('c')`; a non-key event is ignored; every other key event is delivered unchanged |
| `Events.OnlyControlCExits` | src/game.rs:28-31 | a plain `'c'`, or any other character typed with CONTROL, is delivered as typing input |
| `Text.Utf8Len` | src/round.rs:68 | `text().len()` is at least the code-point count, and equal to it exactly when the prompt is ASCII |
| `Text.CountSpaces` | src/round.rs:39 | the space count is at most the length and is zero exactly when the prompt has no space |
| `Text.WordsCounted` | src/round.rs:39 | spaces plus one is the number of space-separated words of the prompt |
| `Text.WordsHaveNoSpace` | src/round.rs:39 | no word of that split contains a space |
| `Text.WordsRoundTrip` | src/round.rs:39 | joining the words with single spaces gives the prompt back, so the split loses nothing |
| `Stats.AveragedIsMean` | src/game.rs:46-50 | over the reals, the incremental update `average += (new - average) / attempts` from zero yields the arithmetic mean of all values |
| `Stats.Stat.constructor` | src/game.rs:84-93 | a new statistic has last, average and attempts at zero and has seen no value |
| `Stats.Stat.AddValue` | src/game.rs:46-50 | attempts grows by exactly one, last becomes the new value, average takes one incremental-mean step, and the statistic stays consistent with the whole history |
| `Stats.AverageIsMean` | src/game.rs:49 | a consistent statistic with at least one attempt holds the mean of all values it was given |
| `Games.Game.constructor` | src/game.rs:77-95 | the pool is the given lines in order, and both statistics are fresh, distinct and zero |
| `Games.Game.NextText` | src/game.rs:66-68 | the chosen prompt index lies in `[0, pool length)` |
| `Games.Game.Text` | src/game.rs:69-71 | the prompt at an index inside the pool is one of the pool's prompts |
| `Typing.TypeChar` | src/round.rs:62-67 | the cursor advances by exactly one iff the error buffer is empty and the key is the code point under the cursor; otherwise the cursor stays, the error buffer gains exactly one character at its end, and that character is never a space |
| `Typing.Erase` | src/round.rs:72-78 | with a non-empty error buffer, Backspace removes exactly its last character and keeps the cursor; with an empty one, it moves the cursor back by one but not below zero, and the buffer stays empty |
| `Typing.Step` | src/round.rs:57-81 | a round finishes only on a character key and exactly when the cursor reaches the prompt length; Backspace erases; every other key changes nothing |
| `Typing.StepAsWritten` | src/round.rs:57-81 | with the end test as written, a round finishes exactly on a character key that brings the cursor to the prompt's UTF-8 byte length; the cursor it computes is always the one `Typing.Step` computes |
| `Typing.StepKeepsLive` | src/round.rs:62-77 | every key keeps the cursor within the prompt and spaces out of the error buffer, and a round that goes on stays live |
| `Typing.CharExtendsLine` | src/round.rs:62-67 | the shown line (typed part of the prompt, then the error buffer) gains exactly one character per character key |
| `Typing.BackspaceShortensLine` | src/round.rs:72-78 | Backspace removes exactly the last character of the shown line, if there is one |
| `Typing.BackspaceUndoesChar` | src/round.rs:62-77 | Backspace right after any character key restores the cursor and error buffer exactly |
| `Typing.FinishMeansPromptTyped` | src/round.rs:62-69 | on a non-empty prompt a round finishes only with an empty error buffer and the whole prompt typed |
| `Typing.ReplayKeepsLive` | src/round.rs:55-83 | over any sequence of keys, the cursor never passes the prompt length and the error buffer never holds a space; a round not yet finished stays live |
| `Typing.TwoLetterRounds` | src/round.rs:58-78 | on the prompt "ab": a perfect run finishes; 'x' then Backspace then 'b' finishes; a mistyped space is stored as "_"; Backspace moves back over correct text and stops at 0 |
| `Typing.AsciiPromptsAgree` | src/round.rs:68 | for an ASCII prompt the end test as written agrees with the code-point end test |
| `Typing.MultibytePromptNeverFinishes` | src/round.rs:62-69 | as written, a prompt with a non-ASCII code point never lets a key finish the round |
| `Typing.MultibyteRoundNeverEnds` | src/round.rs:62-69 | as written, no sequence of keys finishes a round over a prompt with a non-ASCII code point |
| `Typing.AccentedPromptAsWritten` | src/round.rs:68 | the prompt "é" typed correctly finishes under the corrected test but not as written |
| `Stages.RoundStage.constructor` | src/round.rs:21-27 | a new round has cursor 0, an empty error buffer and no start time |
| `Stages.RoundStage.EndRound` | src/round.rs:32-49 | each statistic gains exactly one attempt: characters per minute from the cursor, words per minute from spaces plus one, both over the elapsed milliseconds; the game goes to the results screen together with whether saving failed |
| `Stages.RoundStage.TypeKey` | src/round.rs:58-67 | a character key sets the start time only when none is set, and moves the cursor and error buffer exactly as `Typing.TypeChar` says |
| `Stages.RoundStage.EraseKey` | src/round.rs:72-78 | Backspace moves the cursor and error buffer exactly as `Typing.Erase` says and keeps the start time |
| `Stages.RoundStage.HandleKey` | src/round.rs:55-83 | the new cursor is `Step`'s; the start time is set by the first character key and never overwritten; only a finishing character key moves to the results screen and records the scores; Backspace and other keys keep the same round, and other keys change nothing; the handler never exits |
| `Stages.NextRound` | src/round.rs:20-28 | a fresh round over the same game, with cursor 0, no error, no start time and a prompt index inside the pool |
| `Stages.EndStage.HandleKey` | src/end.rs:11-18 | Enter yields a fresh round over the same game; any other key yields the same results screen; it never exits and changes no statistic |
| `Stages.HandleEvent` | src/game.rs:24-37 | it exits iff the event is Ctrl+C; a non-key event returns the same stage with nothing changed; the game is the same game in the next stage; a delivered key moves a round to the results screen iff `Step` finishes |
| `Stages.Run` | src/terminal.rs:12-23 | the loop stops with no stage only right after the first Ctrl+C; otherwise it consumes every event and ends on a valid stage holding the same game |
| `Layout.Inset` | src/round.rs:88 | `width * 20 / 100` is the frame width divided by five and rounded down: `5x <= W < 5(x + 1)` |
| `Layout.ColumnWidth` | src/round.rs:89 | the column between the two insets is at least one column wide and, with both insets, fills the frame |
| `Layout.RoundAreaAsWritten` | src/round.rs:88-91 | as written in `u16`: a frame 3277 columns wide or wider overflows; any area it does compute is inset equally on both sides, at least one row tall and inside the frame |
| `Layout.RowsAsWritten` | src/round.rs:90-91 | once the row count is known, the area exists exactly when `rows + 1` neither overflows `u16` nor exceeds the frame height, and it is then `rows + 1` tall at the given column |
| `Layout.RoundArea` | src/round.rs:87-91 | the column is inset by a fifth of the width on each side (`2x + width == W`); the area is at least one row tall and lies inside the frame, centred vertically; it is as tall as the text needs when that fits, and otherwise fills the frame from row 0 |
| `Layout.CastKeepsRows` | src/round.rs:90 | for a shown text under 65536 bytes, the `as u16` cast keeps the row count, so only the `+ 1` and the final subtraction can overflow |
| `Layout.AsWrittenAgreesWhenItFits` | src/round.rs:87-91 | for a shown text under 65536 bytes, whenever the layout as written does not overflow, it computes the corrected area |
| `Layout.LongErrorOverflowsAsWritten` | src/round.rs:91 | an 80 x 24 frame with a 40-byte prompt and 1200 mistyped characters overflows as written, while the corrected area fills the frame |
| `Layout.HugeTextTruncatedAsWritten` | src/round.rs:90 | an 80 x 24 frame with 48 * 65536 bytes of shown text: the `as u16` cast cuts the row count 65536 to 0, so the area as written is one row tall, while the corrected area fills the frame |

## Findings

| source | as written | input that shows it | evidently intended | confidence | as-written member | corrected member |
|---|---|---|---|---|---|---|
| src/round.rs:68 | the round ends when `index`, a count of code points (`chars().nth`, line 62), equals `text().len()`, a count of UTF-8 bytes | the prompt "é" (2 bytes): typing 'é' moves `index` to 1, the test `1 == 2` fails, and no later key can reach 2, so as a state machine the round never ends; the running program goes further wrong first: the next draw slices `text()[..1]` inside 'é' (src/round.rs:93) and panics (see the byte-slicing line under Left out) | end when `index` equals the prompt's number of code points | high; not executed | `Typing.StepAsWritten`, shown by `Typing.AccentedPromptAsWritten` and `Typing.MultibyteRoundNeverEnds` | `Typing.Step`, proved in `Typing.FinishMeansPromptTyped`; `Stages.RoundStage.HandleKey` uses it |
| src/round.rs:91 | `(outer_size.height - height) / 2` in `u16`, where `height` grows with the error buffer and has no upper bound | an 80 x 24 frame, a 40-byte prompt and 1200 mistyped characters: `height` is 26, and `24 - 26` overflows | keep the text area inside the frame, with its height clamped to the frame | medium; not executed (the overflow panics in a debug build; a release build wraps) | `Layout.RoundAreaAsWritten`, shown by `Layout.LongErrorOverflowsAsWritten` | `Layout.RoundArea` |
| src/round.rs:90 | the row count `(text bytes + error bytes) / width` is cast with `as u16`, which silently keeps only its low 16 bits | an 80 x 24 frame and 48 * 65536 bytes of shown text: 65536 rows are cut to 0, so the area is one row tall | a row count that grows with the text, clamped to the frame | high for the arithmetic; not executed (so much text is unlikely in practice) | `Layout.RoundAreaAsWritten`, shown by `Layout.HugeTextTruncatedAsWritten` | `Layout.RoundArea`, agreeing with the code as written below 65536 bytes by `Layout.AsWrittenAgreesWhenItFits` |

## Left out

- Terminal I/O is not modelled: raw mode, the alternate screen, `event::read`, drawing and the `Drop` teardown (src/terminal.rs). `Stages.Run` takes its events as a sequence.
- src/main.rs is wiring only and is not part of this model.
- Reading the prompt file line by line (`TryFrom<File>`, src/game.rs:74-96) is file I/O. `Games.Game.constructor` takes the lines as given.
- The random generator in `next_text` is not modelled. `Games.Game.NextText` picks an arbitrary index in range.
- The clock is not modelled. `Instant::now` and `elapsed().as_millis()` become fields of the `Environment` parameter.
- Writing the statistics to `stats.toml` (src/round.rs:41-44) is file I/O. Its outcome is the `saveSucceeds` input. The `Stats` type that `save` belongs to is not part of this model.
- Rendering is not modelled: ratatui widgets, colours and the two-decimal formatting (src/round.rs:92-96, src/end.rs:20-29, src/game.rs:53-57).
- The byte slicing `text()[..index]` in `draw` (src/round.rs:93, 95) is not modelled. With a multibyte prompt it can cut inside a code point and panic.
- `f64` arithmetic is modelled over `real`, so rounding is idealised. All equalities about averages and scores hold exactly only in that idealisation.
- `Stages.RoundStage.EndRound` requires a positive elapsed time. A round finished within its first millisecond (one-key prompts) makes the source divide by zero and record an `f64` infinity or NaN, which reals do not represent.
- `Stages.RoundStage.HandleKey` requires a positive elapsed time, for the same reason.
- `Stages.HandleEvent` requires a positive elapsed time, for the same reason.
- `Stages.Run` requires a positive elapsed time with every event, for the same reason.
- `Games.Game.NextText` requires a non-empty pool, because `gen_range(0..0)` panics on an empty prompt file.
- `Stages.NextRound` and `Stages.EndStage.HandleKey` require a non-empty pool, for the same reason.
- `Stats.Stat.AddValue` counts attempts in `nat`. A `usize` overflow would take 2^64 rounds and is not modelled.
- Moving the game between stages is not modelled as ownership. The stages share one `Game` reference, and `Stages.HandleEvent` states that the next stage holds that same game.
