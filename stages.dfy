/** The two screens of the program and the transitions between them: the round being typed
    (src/round.rs), the results screen (src/end.rs), the event handler every stage shares
    (src/game.rs) and the loop that feeds it events (src/terminal.rs). */
module Stages {
  import opened Wrappers
  import opened Events
  import opened Text
  import opened Stats
  import opened Games
  import opened Typing

  /** A reading of the monotonic clock, in milliseconds. */
  type Instant = nat

  /** What handling one key reads from outside the state machine: the clock (`Instant::now`),
      the milliseconds since the round's first key (`elapsed().as_millis()`), and whether
      saving the statistics succeeds. */
  datatype Environment = Environment(now: Instant, elapsedMs: nat, saveSucceeds: bool)

  /** A score per minute: `60000 * count / elapsed_ms`. */
  function PerMinute(count: nat, elapsedMs: nat): real
    requires elapsedMs > 0
  {
    60000.0 * count as real / elapsedMs as real
  }

  /** The screen the program shows; exactly one of them owns the game at any time. */
  datatype Stage = Round(round: RoundStage) | End(results: EndStage)

  class RoundStage {
    const game: Game
    /** The index of this round's prompt in the game's pool (the `text` field). */
    const text: nat
    var error: seq<char>
    var index: nat
    var startTime: Option<Instant>

    function Prompt(): seq<char>
      requires text < |game.prompts|
    {
      game.Text(text)
    }

    function Snapshot(): Cursor
      reads this
    {
      Cursor(index, error)
    }

    /** The game is valid, the prompt exists, the cursor is live, and nothing has been typed
        before the start time is set. */
    ghost predicate Valid()
      reads this, game.tpm, game.wpm
    {
      game.Valid() && text < |game.prompts| && Live(Prompt(), Snapshot()) &&
      (startTime.None? ==> Snapshot() == Fresh)
    }

    constructor (game: Game, text: nat)
      requires game.Valid() && text < |game.prompts|
      ensures Valid() && this.game == game && this.text == text
      ensures Snapshot() == Fresh && startTime == None
    {
      this.game := game;
      this.text := text;
      error, index, startTime := [], 0, None;
    }

    /** `end`: records one attempt in both statistics, the characters per minute counting
        the cursor and the words per minute counting the prompt's spaces plus one, and
        hands the game to the results screen together with whether saving failed. */
    method EndRound(env: Environment) returns (results: EndStage)
      requires game.Valid() && text < |game.prompts| && startTime.Some? && env.elapsedMs > 0
      modifies game.tpm, game.wpm
      ensures results == EndStage(game, !env.saveSucceeds)
      ensures game.Valid()
      ensures game.tpm.values == old(game.tpm.values) + [PerMinute(index, env.elapsedMs)]
      ensures game.wpm.values == old(game.wpm.values) + [PerMinute(WordCount(Prompt()), env.elapsedMs)]
      ensures game.tpm.attempts == old(game.tpm.attempts) + 1
      ensures game.wpm.attempts == old(game.wpm.attempts) + 1
    {
      game.tpm.AddValue(PerMinute(index, env.elapsedMs));
      game.wpm.AddValue(PerMinute(WordCount(Prompt()), env.elapsedMs));
      results := EndStage(game, !env.saveSucceeds);
    }

    /** `handle_key`: a character key starts the clock if it is not running and moves the
        cursor as `Step` says, ending the round when the cursor reaches the end of the prompt;
        Backspace erases; every other key changes nothing. The round never exits by itself. */
    method HandleKey(key: KeyEvent, env: Environment) returns (next: Option<Stage>)
      requires Valid() && env.elapsedMs > 0
      modifies this, game.tpm, game.wpm
      ensures next.Some?
      ensures Snapshot() == Step(Prompt(), old(Snapshot()), key.code).cursor
      ensures startTime == if key.code.Char? && old(startTime).None? then Some(env.now) else old(startTime)
      ensures Step(Prompt(), old(Snapshot()), key.code).Continue? ==>
                next.value == Round(this) && Valid() && unchanged(game.tpm, game.wpm)
      ensures Step(Prompt(), old(Snapshot()), key.code).Finish? ==>
                next.value == End(EndStage(game, !env.saveSucceeds)) && game.Valid() &&
                game.tpm.values == old(game.tpm.values) + [PerMinute(|Prompt()|, env.elapsedMs)] &&
                game.wpm.values == old(game.wpm.values) + [PerMinute(WordCount(Prompt()), env.elapsedMs)]
      ensures !key.code.Char? && !key.code.Backspace? ==> unchanged(this)
    {
      ghost var prompt, before := Prompt(), Snapshot();
      StepKeepsLive(prompt, before, key.code);
      match key.code {
        case Char(c) =>
          TypeKey(c, env.now);
          if index == |Prompt()| {
            var results := EndRound(env);
            return Some(End(results));
          }
        case Backspace =>
          EraseKey();
        case _ =>
      }
      next := Some(Round(this));
    }

    /** A character key: starts the clock if it is not running, then advances the cursor
        when the key matches the prompt and nothing is mistyped, and otherwise appends the
        key to the mistyped characters. */
    method TypeKey(c: char, now: Instant)
      requires text < |game.prompts|
      modifies this
      ensures Snapshot() == TypeChar(Prompt(), old(Snapshot()), c)
      ensures startTime == if old(startTime).None? then Some(now) else old(startTime)
    {
      if startTime.None? {
        startTime := Some(now);
      }
      if Nth(Prompt(), index) == Some(c) && error == [] {
        index := index + 1;
      } else {
        error := error + [Shown(c)];
      }
    }

    /** Backspace: drops the last mistyped character, or else moves the cursor back by one
        without going below zero. */
    method EraseKey()
      modifies this
      ensures Snapshot() == Erase(old(Snapshot())) && startTime == old(startTime)
    {
      if error != [] {
        error := error[..|error| - 1];
      } else {
        index := if index == 0 then 0 else index - 1;
      }
    }
  }

  /** `next_round`: a fresh round over the same game, at a prompt the game picks; the game,
      and with it every statistic, passes into the round unchanged. */
  method NextRound(game: Game) returns (round: RoundStage)
    requires game.Valid() && |game.prompts| > 0
    ensures fresh(round) && round.game == game && round.Valid()
    ensures round.text < |game.prompts|
    ensures round.Snapshot() == Fresh && round.startTime == None
  {
    var text := game.NextText();
    round := new RoundStage(game, text);
  }

  /** The results screen; `failedToSave` tells whether the statistics could not be written. */
  datatype EndStage = EndStage(game: Game, failedToSave: bool) {

    /** `handle_key`: Enter starts a new round over the same game; every other key leaves
        the results screen as it is. The results screen never exits by itself. */
    method HandleKey(key: KeyEvent) returns (next: Option<Stage>)
      requires game.Valid() && |game.prompts| > 0
      ensures next.Some?
      ensures key.code == Enter ==>
                next.value.Round? && fresh(next.value.round) && next.value.round.game == game &&
                next.value.round.Valid() && next.value.round.Snapshot() == Fresh &&
                next.value.round.startTime == None
      ensures key.code != Enter ==> next == Some(End(this))
    {
      match key.code {
        case Enter =>
          var round := NextRound(game);
          next := Some(Round(round));
        case _ =>
          next := Some(End(this));
      }
    }
  }

  function GameOf(stage: Stage): Game {
    match stage
    case Round(r) => r.game
    case End(e) => e.game
  }

  /** The objects a stage may change when it handles an event. */
  function Footprint(stage: Stage): set<object> {
    match stage
    case Round(r) => {r, r.game.tpm, r.game.wpm}
    case End(e) => {e.game.tpm, e.game.wpm}
  }

  ghost predicate StageValid(stage: Stage)
    reads Footprint(stage)
  {
    match stage
    case Round(r) => r.Valid()
    case End(e) => e.game.Valid() && |e.game.prompts| > 0
  }

  /** `handle_event`: Ctrl+C exits from any stage, an event that is not a key leaves the stage
      as it is, and every other key goes to the stage's own key handler. The game stays the
      same game throughout, and the results screen changes no statistic. */
  method HandleEvent(stage: Stage, event: Event, env: Environment) returns (next: Option<Stage>)
    requires StageValid(stage) && env.elapsedMs > 0
    modifies Footprint(stage)
    ensures next == None <==> Dispatch(event) == Exit
    ensures !Dispatch(event).Deliver? ==> unchanged(Footprint(stage))
    ensures Dispatch(event) == Ignore ==> next == Some(stage)
    ensures next.Some? ==> StageValid(next.value) && GameOf(next.value) == GameOf(stage)
    ensures next.Some? ==> fresh(Footprint(next.value) - Footprint(stage))
    ensures stage.End? ==> unchanged(Footprint(stage))
    ensures stage.Round? && Dispatch(event).Deliver? ==>
              (next.value.End? <==> Step(stage.round.Prompt(), old(stage.round.Snapshot()), event.key.code).Finish?)
  {
    match Dispatch(event) {
      case Exit =>
        next := None;
      case Ignore =>
        next := Some(stage);
      case Deliver(key) =>
        match stage {
          case Round(r) =>
            next := r.HandleKey(key, env);
          case End(e) =>
            next := e.HandleKey(key);
        }
    }
  }

  /** One event read from the terminal, with what the environment answers while it is handled. */
  datatype Input = Input(event: Event, env: Environment)

  /** `run`: hands each event to the current stage and replaces the stage with its successor
      until a stage answers with an exit. The program exits only on Ctrl+C, on the first
      one, and the game survives every other event. */
  method Run(initial: Stage, inputs: seq<Input>) returns (last: Option<Stage>, consumed: nat)
    requires StageValid(initial)
    requires forall i :: 0 <= i < |inputs| ==> inputs[i].env.elapsedMs > 0
    modifies Footprint(initial)
    ensures consumed <= |inputs|
    ensures forall i :: 0 <= i < consumed - 1 ==> Dispatch(inputs[i].event) != Exit
    ensures last == None <==> consumed > 0 && Dispatch(inputs[consumed - 1].event) == Exit
    ensures last.Some? ==> consumed == |inputs| && StageValid(last.value) && GameOf(last.value) == GameOf(initial)
  {
    last, consumed := Some(initial), 0;
    while consumed < |inputs| && last.Some?
      invariant consumed <= |inputs|
      invariant forall i :: 0 <= i < consumed - 1 ==> Dispatch(inputs[i].event) != Exit
      invariant last == None <==> consumed > 0 && Dispatch(inputs[consumed - 1].event) == Exit
      invariant last.Some? ==> StageValid(last.value) && GameOf(last.value) == GameOf(initial)
      invariant last.Some? ==> fresh(Footprint(last.value) - Footprint(initial))
      decreases |inputs| - consumed
    {
      var input := inputs[consumed];
      last := HandleEvent(last.value, input.event, input.env);
      consumed := consumed + 1;
    }
  }
}
