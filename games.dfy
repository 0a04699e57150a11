/** The session container of src/game.rs: the prompt pool and the two score statistics. */
module Games {
  import opened Stats

  class Game {
    /** The prompts, one per line of the prompt file, in file order (the `text` field). */
    const prompts: seq<seq<char>>
    /** Characters per minute. */
    const tpm: Stat
    /** Words per minute. */
    const wpm: Stat

    /** Both statistics are distinct, consistent, and have seen the same number of rounds. */
    ghost predicate Valid()
      reads tpm, wpm
    {
      tpm != wpm && tpm.Valid() && wpm.Valid() && |tpm.values| == |wpm.values|
    }

    /** The game built from the lines of the prompt file, with both statistics at zero. */
    constructor (lines: seq<seq<char>>)
      ensures prompts == lines && Valid() && fresh(tpm) && fresh(wpm)
      ensures tpm.values == [] && wpm.values == []
      ensures tpm.attempts == 0 && tpm.last == 0.0 && tpm.average == 0.0
      ensures wpm.attempts == 0 && wpm.last == 0.0 && wpm.average == 0.0
    {
      prompts := lines;
      tpm := new Stat();
      wpm := new Stat();
    }

    /** `next_text`: some index into the pool; which one is the random generator's choice. */
    method NextText() returns (index: nat)
      requires |prompts| > 0
      ensures index < |prompts|
    {
      index :| 0 <= index < |prompts|;
    }

    /** `text`: the prompt at `index`, one of the loaded lines. */
    function Text(index: nat): (r: seq<char>)
      requires index < |prompts|
      ensures r in prompts
    {
      prompts[index]
    }
  }
}
