# Memory Flash Game — a Dafny model

`storyapp.py` is a Streamlit app that helps someone learn a passage by heart. It
cuts a fixed text into chunks of one sentence each. It shows the current chunk for
`SHOW_TIME` (4) seconds and then hides it. The user types the chunk back from
memory and clicks "Check". A match saves the next index in `memory_progress.json`
and reveals the next chunk. "Reset Progress" goes back to chunk 0.

The model has two modules.

- `Chunker` (`chunker.dfy`) models `split_chunks(text, max_sentences)`.
  - `str.strip()` is modelled with Python's `isspace` character set. The same set is
    what `\s` matches in a `str` pattern.
  - `re.split(r'(?<=[.!?])\s+', ...)` is modelled as the scan the regex engine
    performs for this one pattern. The scan finds the leftmost position preceded by
    `.`, `!` or `?` where whitespace starts, consumes the longest whitespace run
    there, and repeats.
  - Its result is characterised independently by `IsSentenceSplit`, which says the
    text is the pieces woven with non-empty whitespace gaps, every gap sits right
    after a sentence terminal, no piece contains a break, and every gap is maximal.
  - It is proved that the scan produces such a split, and that this split is unique.
  - The list comprehension becomes `Group`: batches of `max_sentences` consecutive
    sentences, each joined with single spaces.
- `MemoryGame` (`memory_game.dfy`) models the progress store and the script.
  - Streamlit re-executes the whole script on every interaction, so one execution
    is one step of a state machine. `Step` is that step: it takes the chunk list,
    the state (the stored progress, `start_time` and `chunk_revealed`), the time
    `now` and the event (a plain rerun, "Check" with the typed text, or "Reset
    Progress").
  - `Prelude` is the part every run goes through: loading, indexing, initialising
    the session and the reveal/hide timer.
  - The buttons are drawn below the two `st.experimental_rerun()` calls, so during
    the reveal phase a click never reaches them.
  - `Replay` runs a whole session.
  - The class `MemoryApp` is the same thing as mutable state: fields for the
    store and the session, and one method per kind of run. Each method is proved
    to change its fields exactly as `Step` says.

Inputs from outside the program are parameters:
- `time.time()` is the integer `now` of each run;
- the progress file is an `Option<int>` store, `None` when there is no file or no
  `"progress"` key;
- the text typed into the text area is the `input` carried by the Check event.

## Model

| member | source | states |
|---|---|---|
| Chunker.StripStart | storyapp.py:16 | the leading half of `str.strip()`: drops `isspace` characters from the front one at a time until a non-space character or the end |
| Chunker.StripEnd | storyapp.py:16 | the trailing half of `str.strip()`: drops `isspace` characters from the back one at a time until a non-space character or the start |
| Chunker.Strip | storyapp.py:16 | `str.strip()` with no argument: the leading strip followed by the trailing strip |
| Chunker.StripStartShape | storyapp.py:16 | the leading-strip part of `text.strip()` keeps a suffix of the text that does not start with whitespace, and everything it drops is whitespace |
| Chunker.StripEndShape | storyapp.py:16 | the trailing-strip part keeps a prefix that does not end with whitespace, and everything it drops is whitespace |
| Chunker.StripStripped | storyapp.py:16 | the result of `strip()` has no whitespace at either end |
| Chunker.StripCuts | storyapp.py:16 | the result of `strip()` is the text with an all-whitespace prefix and an all-whitespace suffix cut off |
| Chunker.StripIdentity | storyapp.py:16 | a string with no whitespace at either end strips to itself |
| Chunker.StripStartPad | storyapp.py:16 | a whitespace prefix in front of a string that does not start with whitespace is exactly what the leading strip removes |
| Chunker.StripEndPad | storyapp.py:16 | a whitespace suffix behind a string that does not end with whitespace is exactly what the trailing strip removes |
| Chunker.StripPadded | storyapp.py:69 | a stripped string with any whitespace typed around it strips back to itself |
| Chunker.IsSentenceSplit | storyapp.py:16 | the meaning of `re.split(r'(?<=[.!?])\s+', s)`, without the scan: `s` is the pieces joined by non-empty maximal whitespace runs, each run right after `.`, `!` or `?`, and no piece holds such a break |
| Chunker.Weave | storyapp.py:16 | puts the consumed whitespace runs back between consecutive pieces |
| Chunker.NextBreak | storyapp.py:16 | the scan finds the leftmost split point at or after `i`: the character before it is `.`, `!` or `?` and whitespace starts there, with no split point in between |
| Chunker.RunEnd | storyapp.py:16 | `\s+` consumes the longest whitespace run, ending at the end of the text or at a non-whitespace character |
| Chunker.Scan | storyapp.py:16 | the scan `re.split` performs: find the next break, cut there, consume the whole whitespace run, continue after it; the last piece runs to the end |
| Chunker.ConsSplit | storyapp.py:16 | a sentence ending in a terminal, a whitespace gap and a valid split of the rest form a valid split of the whole |
| Chunker.StepSplit | storyapp.py:16 | one scan step extends a valid split of the rest to a valid split from the current position |
| Chunker.ScanSplits | storyapp.py:16 | the pieces and separators produced by the `re.split` scan form a valid sentence split of the text |
| Chunker.SplitWeaves | storyapp.py:16 | the pieces of a sentence split woven with their gaps give back the text exactly |
| Chunker.SplitPieces | storyapp.py:16 | in a split, every gap is non-empty whitespace right after a sentence terminal, no piece contains a split point, and no later piece starts with whitespace |
| Chunker.SplitHead | storyapp.py:16 | the first piece of a split contains no split point, and with no gaps it is the whole text |
| Chunker.SplitCut | storyapp.py:16 | the first gap of a split starts at a split point and is a maximal whitespace run |
| Chunker.SameFirstCut | storyapp.py:16 | two splits of the same text make their first cut at the same place with the same gap |
| Chunker.SplitUnique | storyapp.py:16 | a text has exactly one sentence split |
| Chunker.ScanUnique | storyapp.py:16 | the scan returns the one and only sentence split of the text |
| Chunker.SplitSentences | storyapp.py:16 | `re.split` always returns at least one piece |
| Chunker.PiecesStripped | storyapp.py:16 | every piece of a split of a non-empty stripped text is non-empty and has no whitespace at either end |
| Chunker.SplitSentencesSplit | storyapp.py:16 | the sentences are a valid split of the stripped text; an empty or all-whitespace text gives `[""]`; otherwise every sentence is non-empty and stripped |
| Chunker.SplitSentencesUnique | storyapp.py:16 | any valid split of the stripped text is the one `re.split` returns |
| Chunker.Join | storyapp.py:17 | `' '.join(xs)`: the strings with one space between consecutive ones, `""` for none |
| Chunker.Batches | storyapp.py:17 | the slices `xs[i:i+k]` for `i` in `range(0, len(xs), k)`, first to last |
| Chunker.BatchesPartition | storyapp.py:17 | the slices `sentences[i:i+k]` for `i` in `range(0, len, k)` cover the sentences in order; every slice has 1 to `k` sentences and all but the last have exactly `k` |
| Chunker.FlattenLength | storyapp.py:17 | batches that are each non-empty hold at least as many sentences as there are batches |
| Chunker.BatchCount | storyapp.py:17 | the number of batches is the ceiling of `len(sentences) / k`, and it is zero exactly for no sentences |
| Chunker.BatchAt | storyapp.py:17 | batch `b` starts at index `b * k` and is `sentences[b*k : min(b*k+k, len)]` |
| Chunker.Group | storyapp.py:17 | a non-empty sentence list gives between 1 and `len(sentences)` chunks |
| Chunker.GroupCount | storyapp.py:17 | the number of chunks is the ceiling of `len(sentences) / max_sentences` |
| Chunker.GroupAt | storyapp.py:17 | chunk `i` is `' '.join(sentences[i*k : i*k+k])` |
| Chunker.GroupOne | storyapp.py:17 | with `max_sentences=1` the chunks are the sentences themselves |
| Chunker.JoinAppend | storyapp.py:17 | joining two non-empty lists is joining each and putting one space between |
| Chunker.JoinBatches | storyapp.py:17 | joining the joined batches gives the same string as joining all the sentences |
| Chunker.GroupRejoin | storyapp.py:17 | joining the chunks with spaces gives the same string as joining the sentences |
| Chunker.JoinStripped | storyapp.py:17 | joining non-empty stripped strings gives a non-empty stripped string |
| Chunker.GroupSingle | storyapp.py:17 | a single sentence is a single chunk, whatever `max_sentences` is |
| Chunker.GroupStripped | storyapp.py:17 | chunks of non-empty stripped sentences are non-empty and stripped |
| Chunker.SplitChunks | storyapp.py:14-17 | `split_chunks` always returns at least one chunk |
| Chunker.ChunksStripped | storyapp.py:14-17 | every chunk survives `.strip()` unchanged, so it can be matched at line 69 |
| MemoryGame.Load | storyapp.py:24-28 | `load_progress()`: the stored `"progress"` value, or 0 when there is no file or no key |
| MemoryGame.Save | storyapp.py:30-32 | `save_progress(index)`: the store afterwards holds `index` |
| MemoryGame.LoadSave | storyapp.py:24-32 | `load_progress` reads back what `save_progress` wrote, and 0 when nothing is stored |
| MemoryGame.PyIndex | storyapp.py:40 | `CHUNKS[progress]` succeeds exactly for `-len <= progress < len`, and a negative index counts from the end |
| MemoryGame.Prelude | storyapp.py:38-63 | the top of every run: load the progress, index the chunk (may raise), refuse a negative fraction at `st.progress`, initialise `start_time` and `chunk_revealed` when missing, then show a chunk younger than 4 seconds or hide an older one and stop, or go on with the index and chunk when hidden |
| MemoryGame.Step | storyapp.py:38-89 | one run for one event: after the top of the script, a rerun shows the prompt, Check compares the stripped input with the chunk and advances, finishes or reports a mismatch, and Reset stores 0 and reveals again |
| MemoryGame.Replay | storyapp.py:38-89 | a session: the runs for a sequence of timed events, one after another, and the screens they leave |
| MemoryGame.FreshStart | storyapp.py:19-28 | with nothing stored, progress 0 indexes the app's non-empty chunk list |
| MemoryGame.HiddenGoes | storyapp.py:38-63 | with the chunk hidden, the run gets past the timer with the stored index and its chunk, and the state unchanged |
| MemoryGame.StepKeepsRange | storyapp.py:38-89 | from a stored progress in range, no run raises at line 40 or line 42, and the stored progress stays in range |
| MemoryGame.FirstRunReveals | storyapp.py:46-59 | the first run of a session starts the timer now and shows the stored chunk for the full 4 seconds, whatever the event |
| MemoryGame.RevealShows | storyapp.py:55-59 | while the chunk is revealed and younger than 4 seconds, the run shows it with `4 - elapsed` seconds left, ignores the event and changes nothing |
| MemoryGame.TimeoutHides | storyapp.py:61-63 | once 4 seconds have passed, the run hides the chunk, ignores the event and changes nothing else |
| MemoryGame.CheckAdvances | storyapp.py:68-75 | with the chunk hidden, a matching Check before the last chunk saves `progress + 1`, restarts the timer and reveals the next chunk |
| MemoryGame.CheckOnLast | storyapp.py:76-78 | a matching Check on the last chunk finishes and changes nothing |
| MemoryGame.CheckMismatch | storyapp.py:79-80 | a Check whose stripped input differs from the chunk changes nothing |
| MemoryGame.PaddedAnswerMatches | storyapp.py:69-78 | the chunk typed exactly, with any whitespace around it, is a match when the chunk is stripped |
| MemoryGame.TypedChunkMatches | storyapp.py:17-19 | for the app's own chunks, the chunk typed exactly, with any whitespace around it, always matches |
| MemoryGame.ResetRestarts | storyapp.py:85-89 | with the chunk hidden, Reset stores 0, restarts the timer and reveals the first chunk |
| MemoryGame.ReplayKeepsRange | storyapp.py:38-89 | over any session started in range, every run finds its chunk, no screen is an error, and the store stays in range |
| MemoryGame.StuckOutOfRange | storyapp.py:38-42 | a stored progress the chunk list cannot index is never repaired: every run raises before the Reset button, and nothing changes |
| MemoryGame.StuckNegative | storyapp.py:38-42 | a negative stored progress that indexes from the end is never repaired either: every run raises at `st.progress` before the Reset button, and nothing changes |
| MemoryGame.StepErrorIff | storyapp.py:38-42 | a run raises exactly when the stored progress is not a valid index of a non-empty chunk list, and a run that raises changes nothing |
| MemoryGame.MemoryApp.constructor | storyapp.py:19 | the app's chunks are `split_chunks(text, 1)`, and a new session has no `start_time` and no `chunk_revealed` |
| MemoryGame.MemoryApp.SaveProgress | storyapp.py:30-32 | only the store changes, and it now holds the index |
| MemoryGame.MemoryApp.Begin | storyapp.py:38-63 | the imperative top of the script reaches the same gate and session state as `Prelude` |
| MemoryGame.MemoryApp.Tick | storyapp.py:38-66 | a run with nothing clicked updates the fields and the screen exactly as `Step` does, and keeps the progress in range |
| MemoryGame.MemoryApp.Check | storyapp.py:38-80 | a run with "Check" clicked updates the fields and the screen exactly as `Step` does, and keeps the progress in range |
| MemoryGame.MemoryApp.Reset | storyapp.py:38-89 | a run with "Reset Progress" clicked updates the fields and the screen exactly as `Step` does, and keeps the progress in range |

## Left out

- The user interface (`st.set_page_config`, titles, `st.info`, `st.code`, the caption, `st.success`, `st.error`, `st.balloons`, the expander at lines 82-83) is left out. Each run's visible outcome is reduced to one `Screen` value.
- File and JSON input/output is left out. A missing file or missing key reads as 0. A malformed file, or a `"progress"` value that is not an integer, is not modelled.
- Time is a whole number of seconds. Sub-second `time.time()` values are not modelled, and neither is the `int()` truncation of `SHOW_TIME - elapsed` at line 58. The Check success path reads `time.time()` a second time (line 73); the model uses the same `now` for that run.
- `st.progress(progress / total_chunks)` (line 42) is modelled only by its failure on a negative fraction. In-range values never reach its upper bound, because line 40 raises first.
- `re.split` is modelled only for the fixed pattern of line 16, not as a general regular-expression engine.
- The literal `FULL_TEXT` (lines 7-12) is not part of this model. The app is modelled over any text.
- Chunker.SplitChunks: requires `max_sentences >= 1`. Python raises for 0 and returns `[]` for a negative step, and the app only ever passes 1.
- Chunker.GroupCount: states the number of chunks as the ceiling bound `(n - 1) * k < len <= n * k` rather than as an integer division.
- `st.experimental_rerun()` is modelled as the end of a run. The run that follows is a separate `Rerun` event chosen by the caller of `Replay`; how soon Streamlit schedules it is not modelled.
- Concurrent sessions sharing one progress file are not modelled. Each session is one `State`.
