/**
 * The memory app of storyapp.py: a persisted progress index, the Streamlit session
 * state (`start_time`, `chunk_revealed`), and what one run of the script does with
 * them.
 *
 * Streamlit re-executes the whole script on every interaction, so one run is one
 * step of a state machine. A run is triggered by an event: a plain rerun (the timer
 * loop of `st.experimental_rerun()`, or any refresh), a click on "Check" with the
 * text typed so far, or a click on "Reset Progress". Every run first loads the
 * progress, indexes the chunk and applies the reveal/hide timer; only a run that
 * gets past that gate reaches the text area and the buttons.
 *
 * `time.time()` is the parameter `now` of each run, a whole number of seconds.
 * The progress file is an abstract store: `None` when there is no file or no
 * "progress" key, `Some(i)` when it holds `i`.
 */
module MemoryGame {
  import opened Chunker

  datatype Option<T> = None | Some(value: T)

  function GetOr<T>(o: Option<T>, default: T): T {
    match o
    case None => default
    case Some(v) => v
  }

  /** `SHOW_TIME`: how many seconds a chunk stays on screen. */
  const ShowTime: int := 4

  /** `load_progress()`: the stored index, or 0 when nothing is stored. */
  function Load(store: Option<int>): int {
    GetOr(store, 0)
  }

  /** `save_progress(index)`: what the store holds afterwards. */
  function Save(index: int): Option<int> {
    Some(index)
  }

  /** What `save_progress` writes, `load_progress` reads back; an empty store reads as 0. */
  lemma LoadSave(index: int)
    ensures Load(Save(index)) == index
    ensures Load(None) == 0
  {
  }

  /**
   * `xs[i]` in Python: a negative index counts from the end; anything outside
   * `-len(xs) .. len(xs) - 1` raises IndexError (None here).
   */
  function PyIndex(xs: seq<string>, i: int): (r: Option<string>)
    ensures r.Some? <==> -|xs| <= i < |xs|
    ensures 0 <= i < |xs| ==> r == Some(xs[i])
    ensures -|xs| <= i < 0 ==> r == Some(xs[|xs| + i])
  {
    if 0 <= i < |xs| then Some(xs[i])
    else if -|xs| <= i < 0 then Some(xs[|xs| + i])
    else None
  }

  /** What one run leaves on the screen. */
  datatype Screen =
    | Memorize(chunk: string, secondsLeft: int)  // the chunk, with "Disappearing in N sec..."
    | Hidden                                      // the chunk was just hidden; the script reruns
    | Prompt                                      // the text area and the buttons, nothing clicked
    | Nailed(next: int)                           // a match; the next chunk is saved and revealed
    | Finished                                    // a match on the last chunk
    | NotQuite                                    // a mismatch
    | Restarted                                   // progress reset to the first chunk
    | IndexError                                  // `CHUNKS[progress]` raised
    | ProgressOutOfRange                          // `st.progress` refused a negative fraction

  /**
   * Everything a run reads and writes: the progress store and the two session
   * values, `None` until the first run of a session sets them.
   */
  datatype State = State(saved: Option<int>, startTime: Option<int>, revealed: Option<bool>)

  datatype Event = Rerun | CheckPressed(input: string) | ResetPressed

  /** How the top of the script ends: the run stops there, or it goes on with the loaded index and chunk. */
  datatype Gate =
    | Stop(state: State, screen: Screen)
    | Go(state: State, progress: int, current: string)

  /**
   * Lines 38-63 of every run. `CHUNKS[progress]` may raise, and a negative progress
   * that indexes from the end makes `st.progress(progress / total_chunks)` raise;
   * either stops the run before the session is touched. Otherwise the session values
   * are initialised if missing; a revealed chunk younger than `SHOW_TIME` is shown
   * and the run stops; an older one is hidden and the run stops.
   */
  function Prelude(chunks: seq<string>, s: State, now: int): Gate {
    var progress := Load(s.saved);
    match PyIndex(chunks, progress)
    case None => Stop(s, IndexError)
    case Some(current) =>
      if progress < 0 then
        Stop(s, ProgressOutOfRange)
      else
        var start := GetOr(s.startTime, now);
        var revealed := GetOr(s.revealed, true);
        var elapsed := now - start;
        if revealed && elapsed < ShowTime then
          Stop(State(s.saved, Some(start), Some(true)), Memorize(current, ShowTime - elapsed))
        else if revealed then
          Stop(State(s.saved, Some(start), Some(false)), Hidden)
        else
          Go(State(s.saved, Some(start), Some(false)), progress, current)
  }

  /** One run of the script, triggered by `ev` at time `now`: the new state and the screen. */
  function Step(chunks: seq<string>, s: State, now: int, ev: Event): (State, Screen) {
    match Prelude(chunks, s, now)
    case Stop(s', screen) => (s', screen)
    case Go(s', progress, current) =>
      match ev
      case Rerun => (s', Prompt)
      case CheckPressed(input) =>
        if Strip(input) == current then
          if progress + 1 < |chunks| then
            (State(Save(progress + 1), Some(now), Some(true)), Nailed(progress + 1))
          else
            (s', Finished)
        else
          (s', NotQuite)
      case ResetPressed => (State(Save(0), Some(now), Some(true)), Restarted)
  }

  /** The stored progress is a valid index of the (non-empty) chunk list. */
  predicate InRange(chunks: seq<string>, s: State) {
    |chunks| >= 1 && 0 <= Load(s.saved) < |chunks|
  }

  predicate IsError(screen: Screen) {
    screen == IndexError || screen == ProgressOutOfRange
  }

  /** A new session over the app's own chunk list with nothing stored starts at chunk 0, a valid index. */
  lemma FreshStart(text: string, k: nat)
    requires k >= 1
    ensures InRange(SplitChunks(text, k), State(None, None, None))
  {
  }

  /**
   * The index at line 40 never goes out of bounds: from a stored progress in range,
   * no run raises, and the progress stored afterwards is in range again.
   */
  lemma StepKeepsRange(chunks: seq<string>, s: State, now: int, ev: Event)
    requires InRange(chunks, s)
    ensures InRange(chunks, Step(chunks, s, now, ev).0)
    ensures !IsError(Step(chunks, s, now, ev).1)
  {
  }

  /**
   * The first run of a session shows the stored chunk for the full `SHOW_TIME`,
   * whatever was clicked, and changes only the session.
   */
  lemma FirstRunReveals(chunks: seq<string>, saved: Option<int>, now: int, ev: Event)
    requires InRange(chunks, State(saved, None, None))
    ensures Step(chunks, State(saved, None, None), now, ev)
            == (State(saved, Some(now), Some(true)), Memorize(chunks[Load(saved)], ShowTime))
  {
  }

  /**
   * While the chunk is revealed and younger than `SHOW_TIME`, the run shows it and
   * stops: the input and the buttons are not reached, so the event makes no
   * difference, and the store is not written.
   */
  lemma RevealShows(chunks: seq<string>, s: State, now: int, ev: Event)
    requires InRange(chunks, s)
    requires s.revealed == Some(true) && s.startTime.Some? && now - s.startTime.value < ShowTime
    ensures Step(chunks, s, now, ev)
            == (s, Memorize(chunks[Load(s.saved)], ShowTime - (now - s.startTime.value)))
  {
  }

  /** Once `SHOW_TIME` has passed, the chunk is hidden, whatever was clicked, and nothing else changes. */
  lemma TimeoutHides(chunks: seq<string>, s: State, now: int, ev: Event)
    requires InRange(chunks, s)
    requires s.revealed == Some(true) && s.startTime.Some? && now - s.startTime.value >= ShowTime
    ensures Step(chunks, s, now, ev) == (s.(revealed := Some(false)), Hidden)
  {
  }

  /** With the chunk hidden, the run gets past the timer with the stored index and its chunk, and the state unchanged. */
  lemma HiddenGoes(chunks: seq<string>, s: State, now: int)
    requires InRange(chunks, s) && s.revealed == Some(false) && s.startTime.Some?
    ensures Prelude(chunks, s, now) == Go(s, Load(s.saved), chunks[Load(s.saved)])
  {
  }

  /**
   * With the chunk hidden, a Check whose stripped input is exactly the current chunk
   * saves the next index, restarts the timer and reveals the next chunk.
   */
  lemma CheckAdvances(chunks: seq<string>, s: State, now: int, input: string)
    requires InRange(chunks, s) && s.revealed == Some(false) && s.startTime.Some?
    requires Strip(input) == chunks[Load(s.saved)] && Load(s.saved) + 1 < |chunks|
    ensures var (s', screen) := Step(chunks, s, now, CheckPressed(input));
            s' == State(Some(Load(s.saved) + 1), Some(now), Some(true))
            && Load(s'.saved) == Load(s.saved) + 1 && screen == Nailed(Load(s.saved) + 1)
  {
    HiddenGoes(chunks, s, now);
  }

  /** A matching Check on the last chunk celebrates and changes nothing. */
  lemma CheckOnLast(chunks: seq<string>, s: State, now: int, input: string)
    requires InRange(chunks, s) && s.revealed == Some(false) && s.startTime.Some?
    requires Strip(input) == chunks[Load(s.saved)] && Load(s.saved) + 1 == |chunks|
    ensures Step(chunks, s, now, CheckPressed(input)) == (s, Finished)
  {
    HiddenGoes(chunks, s, now);
  }

  /** A Check whose stripped input differs from the current chunk changes nothing. */
  lemma CheckMismatch(chunks: seq<string>, s: State, now: int, input: string)
    requires InRange(chunks, s) && s.revealed == Some(false) && s.startTime.Some?
    requires Strip(input) != chunks[Load(s.saved)]
    ensures Step(chunks, s, now, CheckPressed(input)) == (s, NotQuite)
  {
    HiddenGoes(chunks, s, now);
  }

  /**
   * An answer typed exactly as the current chunk, with any whitespace around it, is
   * a match when the chunk itself has no whitespace at either end.
   */
  lemma PaddedAnswerMatches(chunks: seq<string>, s: State, now: int, pad: string, pad': string)
    requires InRange(chunks, s) && s.revealed == Some(false) && s.startTime.Some?
    requires Strip(chunks[Load(s.saved)]) == chunks[Load(s.saved)]
    requires AllSpace(pad) && AllSpace(pad')
    ensures var input := pad + chunks[Load(s.saved)] + pad';
            Step(chunks, s, now, CheckPressed(input)).1 in {Nailed(Load(s.saved) + 1), Finished}
  {
    var c := chunks[Load(s.saved)];
    StripPadded(pad, c, pad');
    if Load(s.saved) + 1 < |chunks| {
      CheckAdvances(chunks, s, now, pad + c + pad');
    } else {
      CheckOnLast(chunks, s, now, pad + c + pad');
    }
  }

  /** Every chunk of the app can be typed back: it survives `.strip()` unchanged. */
  lemma TypedChunkMatches(text: string, k: nat, s: State, now: int, pad: string, pad': string)
    requires k >= 1
    requires InRange(SplitChunks(text, k), s) && s.revealed == Some(false) && s.startTime.Some?
    requires AllSpace(pad) && AllSpace(pad')
    ensures var chunks := SplitChunks(text, k);
            var input := pad + chunks[Load(s.saved)] + pad';
            Step(chunks, s, now, CheckPressed(input)).1 in {Nailed(Load(s.saved) + 1), Finished}
  {
    var chunks := SplitChunks(text, k);
    ChunksStripped(text, k);
    PaddedAnswerMatches(chunks, s, now, pad, pad');
  }

  /** With the chunk hidden, Reset stores 0, restarts the timer and reveals the first chunk. */
  lemma ResetRestarts(chunks: seq<string>, s: State, now: int)
    requires InRange(chunks, s) && s.revealed == Some(false)
    ensures Step(chunks, s, now, ResetPressed) == (State(Some(0), Some(now), Some(true)), Restarted)
  {
  }

  /** The runs of a session, one per timed event, and the screens they leave. */
  function Replay(chunks: seq<string>, s: State, events: seq<(int, Event)>): (State, seq<Screen>)
    decreases |events|
  {
    if events == [] then
      (s, [])
    else
      var (s', screen) := Step(chunks, s, events[0].0, events[0].1);
      var (last, screens) := Replay(chunks, s', events[1..]);
      (last, [screen] + screens)
  }

  /**
   * From a store in range (a fresh one included), every run of any session finds its
   * chunk: no screen is an error, and the store stays in range.
   */
  lemma {:induction false} ReplayKeepsRange(chunks: seq<string>, s: State, events: seq<(int, Event)>)
    requires InRange(chunks, s)
    ensures InRange(chunks, Replay(chunks, s, events).0)
    ensures |Replay(chunks, s, events).1| == |events|
    ensures forall i | 0 <= i < |events| :: !IsError(Replay(chunks, s, events).1[i])
    decreases |events|
  {
    if events != [] {
      var (s', screen) := Step(chunks, s, events[0].0, events[0].1);
      StepKeepsRange(chunks, s, events[0].0, events[0].1);
      ReplayKeepsRange(chunks, s', events[1..]);
      var rest := Replay(chunks, s', events[1..]).1;
      assert Replay(chunks, s, events).1 == [screen] + rest;
    }
  }

  /**
   * A stored progress the chunk list cannot index is never repaired: every run
   * raises at line 40 before the Reset button is drawn, and nothing changes.
   */
  lemma {:induction false} StuckOutOfRange(chunks: seq<string>, s: State, events: seq<(int, Event)>)
    requires Load(s.saved) >= |chunks| || Load(s.saved) < -|chunks|
    ensures Replay(chunks, s, events).0 == s
    ensures forall i | 0 <= i < |Replay(chunks, s, events).1| :: Replay(chunks, s, events).1[i] == IndexError
    decreases |events|
  {
    if events != [] {
      StuckOutOfRange(chunks, s, events[1..]);
      var rest := Replay(chunks, s, events[1..]).1;
      assert Replay(chunks, s, events).1 == [IndexError] + rest;
    }
  }

  /**
   * A negative stored progress that the chunk list can index from the end is never
   * repaired either: line 40 succeeds, `st.progress` raises at line 42 on every run,
   * the Reset button is never reached, and nothing changes.
   */
  lemma {:induction false} StuckNegative(chunks: seq<string>, s: State, events: seq<(int, Event)>)
    requires -|chunks| <= Load(s.saved) < 0
    ensures Replay(chunks, s, events).0 == s
    ensures forall i | 0 <= i < |Replay(chunks, s, events).1| :: Replay(chunks, s, events).1[i] == ProgressOutOfRange
    decreases |events|
  {
    if events != [] {
      StuckNegative(chunks, s, events[1..]);
      var rest := Replay(chunks, s, events[1..]).1;
      assert Replay(chunks, s, events).1 == [ProgressOutOfRange] + rest;
    }
  }

  /** A run raises exactly when the stored progress is not a valid index of a non-empty chunk list. */
  lemma StepErrorIff(chunks: seq<string>, s: State, now: int, ev: Event)
    ensures IsError(Step(chunks, s, now, ev).1) <==> !InRange(chunks, s)
    ensures IsError(Step(chunks, s, now, ev).1) ==> Step(chunks, s, now, ev).0 == s
  {
  }

  /**
   * The running app: the chunk list computed at start-up, the progress file, and
   * the session state. Each method is one run of the script for one kind of event.
   */
  class MemoryApp {
    /** `CHUNKS = split_chunks(FULL_TEXT, max_sentences=1)`. */
    const chunks: seq<string>
    /** The contents of `memory_progress.json`. */
    var saved: Option<int>
    /** `st.session_state.start_time`. */
    var startTime: Option<int>
    /** `st.session_state.chunk_revealed`. */
    var chunkRevealed: Option<bool>

    function Snapshot(): State
      reads this
    {
      State(saved, startTime, chunkRevealed)
    }

    /** A new session over `text`, with whatever an earlier session left in the progress file. */
    constructor (text: string, saved: Option<int>)
      ensures chunks == SplitChunks(text, 1)
      ensures Snapshot() == State(saved, None, None)
    {
      chunks := SplitChunks(text, 1);
      this.saved := saved;
      startTime := None;
      chunkRevealed := None;
    }

    /** `save_progress(index)`. */
    method SaveProgress(index: int)
      modifies this
      ensures Snapshot() == old(Snapshot()).(saved := Save(index))
    {
      saved := Some(index);
    }

    /** Lines 38-63: load, index, initialise the session, then the reveal/hide timer. */
    method Begin(now: int) returns (gate: Gate)
      modifies this
      ensures gate == Prelude(chunks, old(Snapshot()), now)
      ensures Snapshot() == gate.state
    {
      var progress := Load(saved);
      var current := PyIndex(chunks, progress);
      if current.None? {
        return Stop(Snapshot(), IndexError);
      }
      if progress < 0 {
        return Stop(Snapshot(), ProgressOutOfRange);
      }
      if startTime.None? {
        startTime := Some(now);
      }
      if chunkRevealed.None? {
        chunkRevealed := Some(true);
      }
      var elapsed := now - startTime.value;
      if chunkRevealed.value && elapsed < ShowTime {
        return Stop(Snapshot(), Memorize(current.value, ShowTime - elapsed));
      } else if chunkRevealed.value && elapsed >= ShowTime {
        chunkRevealed := Some(false);
        return Stop(Snapshot(), Hidden);
      }
      return Go(Snapshot(), progress, current.value);
    }

    /** A run with nothing clicked. */
    method Tick(now: int) returns (screen: Screen)
      modifies this
      ensures (Snapshot(), screen) == Step(chunks, old(Snapshot()), now, Rerun)
      ensures InRange(chunks, old(Snapshot())) ==> InRange(chunks, Snapshot()) && !IsError(screen)
    {
      if InRange(chunks, Snapshot()) {
        StepKeepsRange(chunks, Snapshot(), now, Rerun);
      }
      var gate := Begin(now);
      if gate.Stop? {
        return gate.screen;
      }
      return Prompt;
    }

    /** A run in which "Check" was clicked with `input` in the text area (lines 66-80). */
    method Check(now: int, input: string) returns (screen: Screen)
      modifies this
      ensures (Snapshot(), screen) == Step(chunks, old(Snapshot()), now, CheckPressed(input))
      ensures InRange(chunks, old(Snapshot())) ==> InRange(chunks, Snapshot()) && !IsError(screen)
    {
      if InRange(chunks, Snapshot()) {
        StepKeepsRange(chunks, Snapshot(), now, CheckPressed(input));
      }
      var gate := Begin(now);
      if gate.Stop? {
        return gate.screen;
      }
      if Strip(input) == gate.current {
        if gate.progress + 1 < |chunks| {
          SaveProgress(gate.progress + 1);
          startTime := Some(now);
          chunkRevealed := Some(true);
          return Nailed(gate.progress + 1);
        }
        return Finished;
      }
      return NotQuite;
    }

    /** A run in which "Reset Progress" was clicked (lines 85-89). */
    method Reset(now: int) returns (screen: Screen)
      modifies this
      ensures (Snapshot(), screen) == Step(chunks, old(Snapshot()), now, ResetPressed)
      ensures InRange(chunks, old(Snapshot())) ==> InRange(chunks, Snapshot()) && !IsError(screen)
    {
      if InRange(chunks, Snapshot()) {
        StepKeepsRange(chunks, Snapshot(), now, ResetPressed);
      }
      var gate := Begin(now);
      if gate.Stop? {
        return gate.screen;
      }
      SaveProgress(0);
      startTime := Some(now);
      chunkRevealed := Some(true);
      return Restarted;
    }
  }
}
