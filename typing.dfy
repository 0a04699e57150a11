/** The typing state machine of a round (src/round.rs, `RoundStage::handle_key`), on values:
    the cursor into the prompt, the error buffer, and what one key does to them. */
module Typing {
  import opened Wrappers
  import opened Events
  import opened Text

  /** How many code points of the prompt were typed correctly (`index`), and the mistyped
      characters typed since that still wait to be erased (`error`). */
  datatype Cursor = Cursor(index: nat, error: seq<char>)

  /** The cursor of a round no key has touched yet. */
  const Fresh: Cursor := Cursor(0, [])

  /** `chars().nth(index)`: the code point under the cursor, if there is one. */
  function Nth(prompt: seq<char>, index: nat): Option<char> {
    if index < |prompt| then Some(prompt[index]) else None
  }

  /** How a mistyped character is stored in the error buffer: a space as '_', so that it shows. */
  function Shown(c: char): char {
    if c == ' ' then '_' else c
  }

  /** Typing `c` moves the cursor on: nothing waits to be erased and `c` is the code point
      under the cursor. */
  predicate Advances(prompt: seq<char>, cur: Cursor, c: char) {
    cur.error == [] && Nth(prompt, cur.index) == Some(c)
  }

  /** A character key: the cursor moves on by one exactly when the key advances it; otherwise
      the cursor stays and the error buffer grows by exactly one character, never a space. */
  function TypeChar(prompt: seq<char>, cur: Cursor, c: char): (r: Cursor)
    ensures r.index == cur.index + 1 <==> Advances(prompt, cur, c)
    ensures Advances(prompt, cur, c) ==> r.error == cur.error
    ensures !Advances(prompt, cur, c) ==>
              r.index == cur.index && |r.error| == |cur.error| + 1 &&
              r.error[..|cur.error|] == cur.error && r.error[|cur.error|] != ' '
  {
    if Nth(prompt, cur.index) == Some(c) && cur.error == [] then
      Cursor(cur.index + 1, cur.error)
    else
      Cursor(cur.index, cur.error + [Shown(c)])
  }

  /** Backspace: drops the last mistyped character if there is one, and otherwise moves the
      cursor back by one without going below zero (`saturating_sub`). */
  function Erase(cur: Cursor): (r: Cursor)
    ensures cur.error != [] ==> r.index == cur.index && r.error + [cur.error[|cur.error| - 1]] == cur.error
    ensures cur.error == [] ==> r.error == [] && r.index == if cur.index == 0 then 0 else cur.index - 1
  {
    if cur.error != [] then Cursor(cur.index, cur.error[..|cur.error| - 1])
    else Cursor(if cur.index == 0 then 0 else cur.index - 1, cur.error)
  }

  /** What one key does to a round: it goes on with a new cursor, or it is finished. */
  datatype Outcome = Continue(cursor: Cursor) | Finish(cursor: Cursor)

  /** One key handled by a round whose end test compares the cursor with `endAt`. */
  function StepUntil(endAt: nat, prompt: seq<char>, cur: Cursor, code: KeyCode): Outcome {
    match code
    case Char(c) =>
      var next := TypeChar(prompt, cur, c);
      if next.index == endAt then Finish(next) else Continue(next)
    case Backspace => Continue(Erase(cur))
    case _ => Continue(cur)
  }

  /** One key handled by a round that ends when the cursor reaches the prompt's number of
      code points. A round finishes only on a character key that brings the cursor to the
      end; every key but a character and Backspace changes nothing. */
  function Step(prompt: seq<char>, cur: Cursor, code: KeyCode): (o: Outcome)
    ensures o.Finish? <==> code.Char? && o.cursor.index == |prompt|
    ensures code.Backspace? ==> o == Continue(Erase(cur))
    ensures !code.Char? && !code.Backspace? ==> o == Continue(cur)
  {
    StepUntil(|prompt|, prompt, cur, code)
  }

  /** One key handled as src/round.rs:68 writes the end test: the cursor, a count of code
      points, is compared with `text().len()`, a count of UTF-8 bytes. */
  function StepAsWritten(prompt: seq<char>, cur: Cursor, code: KeyCode): (o: Outcome)
    ensures o.Finish? <==> code.Char? && o.cursor.index == Utf8Len(prompt)
    ensures o.cursor == Step(prompt, cur, code).cursor
  {
    StepUntil(Utf8Len(prompt), prompt, cur, code)
  }

  /** What every cursor of a round still in progress satisfies: the cursor is inside the
      prompt (at its end only for an empty prompt) and the error buffer holds no space. */
  predicate Live(prompt: seq<char>, cur: Cursor) {
    (cur.index < |prompt| || cur.index == 0) && ' ' !in cur.error
  }

  /** Every key keeps the cursor within the prompt and spaces out of the error buffer, and a
      round that goes on is live again. */
  lemma StepKeepsLive(prompt: seq<char>, cur: Cursor, code: KeyCode)
    requires Live(prompt, cur)
    ensures Step(prompt, cur, code).cursor.index <= |prompt|
    ensures ' ' !in Step(prompt, cur, code).cursor.error
    ensures Step(prompt, cur, code).Continue? ==> Live(prompt, Step(prompt, cur, code).cursor)
  {
    match code
    case Char(c) =>
      var next := TypeChar(prompt, cur, c);
      if !Advances(prompt, cur, c) {
        assert next.error == cur.error + [Shown(c)];
      }
    case Backspace =>
      if cur.error != [] {
        assert cur.error == cur.error[..|cur.error| - 1] + [cur.error[|cur.error| - 1]];
      }
    case _ =>
  }

  /** The line the round shows: the correctly typed part of the prompt, then the error buffer. */
  function Line(prompt: seq<char>, cur: Cursor): seq<char>
    requires cur.index <= |prompt|
  {
    prompt[..cur.index] + cur.error
  }

  /** A character key appends exactly one character to the shown line: the key itself when
      it advances the cursor, its shown form otherwise. */
  lemma CharExtendsLine(prompt: seq<char>, cur: Cursor, c: char)
    requires cur.index <= |prompt|
    ensures TypeChar(prompt, cur, c).index <= |prompt|
    ensures Line(prompt, TypeChar(prompt, cur, c)) ==
            Line(prompt, cur) + [if Advances(prompt, cur, c) then c else Shown(c)]
  {
    if Advances(prompt, cur, c) {
      assert prompt[..cur.index + 1] == prompt[..cur.index] + [c];
    }
  }

  /** Backspace deletes exactly the last character of the shown line, if there is one. */
  lemma BackspaceShortensLine(prompt: seq<char>, cur: Cursor)
    requires cur.index <= |prompt|
    ensures Erase(cur).index <= |prompt|
    ensures var line := Line(prompt, cur);
            Line(prompt, Erase(cur)) == if line == [] then [] else line[..|line| - 1]
  {
    var line := Line(prompt, cur);
    if cur.error != [] {
      assert line[..|line| - 1] == prompt[..cur.index] + cur.error[..|cur.error| - 1];
    } else if cur.index > 0 {
      assert line == prompt[..cur.index];
      assert prompt[..cur.index][..cur.index - 1] == prompt[..cur.index - 1];
    }
  }

  /** Backspace undoes any character key: a mistyped character leaves the buffer again and a
      correct one moves the cursor back. */
  lemma BackspaceUndoesChar(prompt: seq<char>, cur: Cursor, c: char)
    ensures Erase(TypeChar(prompt, cur, c)) == cur
  {
    if !Advances(prompt, cur, c) {
      assert (cur.error + [Shown(c)])[..|cur.error|] == cur.error;
    }
  }

  /** A round over a non-empty prompt finishes only once the whole prompt has been typed
      correctly: the error buffer is empty and the shown line is the prompt. */
  lemma FinishMeansPromptTyped(prompt: seq<char>, cur: Cursor, c: char)
    requires Live(prompt, cur) && prompt != []
    requires Step(prompt, cur, Char(c)).Finish?
    ensures Step(prompt, cur, Char(c)).cursor.index == |prompt|
    ensures Step(prompt, cur, Char(c)).cursor.error == []
    ensures Line(prompt, Step(prompt, cur, Char(c)).cursor) == prompt
  {
    assert Advances(prompt, cur, c);
    assert prompt[..|prompt|] == prompt;
  }

  /** For an all-ASCII prompt the byte length is the code-point count, so the end test as
      written agrees with the corrected one. */
  lemma AsciiPromptsAgree(prompt: seq<char>, cur: Cursor, code: KeyCode)
    requires IsAscii(prompt)
    ensures StepAsWritten(prompt, cur, code) == Step(prompt, cur, code)
  {
  }

  /** As written, a round over a prompt with a non-ASCII code point never finishes: the cursor
      never passes the code-point count, which stays below the byte length. */
  lemma MultibytePromptNeverFinishes(prompt: seq<char>, cur: Cursor, code: KeyCode)
    requires !IsAscii(prompt) && cur.index <= |prompt|
    ensures StepAsWritten(prompt, cur, code).Continue?
    ensures StepAsWritten(prompt, cur, code).cursor.index <= |prompt|
  {
    assert Utf8Len(prompt) > |prompt|;
  }

  /** The prompt "é": typing 'é' completes it, yet as written the round goes on. */
  lemma AccentedPromptAsWritten()
    ensures Step("\U{E9}", Fresh, Char('\U{E9}')) == Finish(Cursor(1, []))
    ensures StepAsWritten("\U{E9}", Fresh, Char('\U{E9}')) == Continue(Cursor(1, []))
  {
    assert Utf8Len("\U{E9}") == 2;
  }

  /** A round fed `keys` one after another, stopping at the key that finishes it. */
  function ReplayUntil(endAt: nat, prompt: seq<char>, cur: Cursor, keys: seq<KeyCode>): Outcome
    decreases |keys|
  {
    if keys == [] then Continue(cur)
    else
      match StepUntil(endAt, prompt, cur, keys[0])
      case Finish(done) => Finish(done)
      case Continue(next) => ReplayUntil(endAt, prompt, next, keys[1..])
  }

  function Replay(prompt: seq<char>, cur: Cursor, keys: seq<KeyCode>): Outcome {
    ReplayUntil(|prompt|, prompt, cur, keys)
  }

  function ReplayAsWritten(prompt: seq<char>, cur: Cursor, keys: seq<KeyCode>): Outcome {
    ReplayUntil(Utf8Len(prompt), prompt, cur, keys)
  }

  /** Throughout a round, whatever keys arrive, the cursor stays inside the prompt and the
      error buffer holds no space; a round that has not finished is live. */
  lemma {:induction false} ReplayKeepsLive(prompt: seq<char>, cur: Cursor, keys: seq<KeyCode>)
    requires Live(prompt, cur)
    ensures Replay(prompt, cur, keys).cursor.index <= |prompt|
    ensures ' ' !in Replay(prompt, cur, keys).cursor.error
    ensures Replay(prompt, cur, keys).Continue? ==> Live(prompt, Replay(prompt, cur, keys).cursor)
    decreases |keys|
  {
    if keys != [] {
      StepKeepsLive(prompt, cur, keys[0]);
      if Step(prompt, cur, keys[0]).Continue? {
        ReplayKeepsLive(prompt, Step(prompt, cur, keys[0]).cursor, keys[1..]);
      }
    }
  }

  /** As written, no sequence of keys ever finishes a round over a prompt with a non-ASCII
      code point. */
  lemma {:induction false} MultibyteRoundNeverEnds(prompt: seq<char>, cur: Cursor, keys: seq<KeyCode>)
    requires !IsAscii(prompt) && cur.index <= |prompt|
    ensures ReplayAsWritten(prompt, cur, keys).Continue?
    decreases |keys|
  {
    if keys != [] {
      MultibytePromptNeverFinishes(prompt, cur, keys[0]);
      MultibyteRoundNeverEnds(prompt, StepAsWritten(prompt, cur, keys[0]).cursor, keys[1..]);
    }
  }

  /** Rounds over the prompt "ab": a perfect run; a mistake erased and then corrected; a
      mistyped space stored as '_'; Backspace moving back over correct text and stopping at
      zero. */
  lemma TwoLetterRounds()
    ensures Replay("ab", Fresh, [Char('a'), Char('b')]) == Finish(Cursor(2, []))
    ensures Replay("ab", Fresh, [Char('a'), Char('x')]) == Continue(Cursor(1, "x"))
    ensures Replay("ab", Fresh, [Char('a'), Char('x'), Backspace]) == Continue(Cursor(1, []))
    ensures Replay("ab", Fresh, [Char('a'), Char('x'), Backspace, Char('b')]) == Finish(Cursor(2, []))
    ensures Replay("ab", Fresh, [Char('a'), Char(' ')]) == Continue(Cursor(1, "_"))
    ensures Replay("ab", Fresh, [Char('a'), Backspace, Backspace]) == Continue(Cursor(0, []))
    ensures Replay("ab", Fresh, [Char('a'), Backspace, Backspace, Char('a'), Char('b')]) == Finish(Cursor(2, []))
  {
  }
}
