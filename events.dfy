/** The terminal input events a stage consumes, and the global dispatch every stage shares
    (src/game.rs, the blanket `HandleEvent` implementation). */
module Events {

  /** The key codes the stages tell apart; every other key of the terminal is one of the rest. */
  datatype KeyCode =
    | Char(c: char)
    | Backspace
    | Enter
    | Esc
    | Tab
    | Left
    | Right
    | Up
    | Down
    | F(n: nat)

  datatype Modifier = Shift | Control | Alt | Super | Hyper | Meta

  datatype KeyEvent = KeyEvent(code: KeyCode, modifiers: set<Modifier>)

  /** Everything the terminal can report; only `Key` events reach a stage's key handler. */
  datatype Event =
    | Key(key: KeyEvent)
    | FocusGained
    | FocusLost
    | Mouse(column: nat, row: nat)
    | Paste(text: string)
    | Resize(columns: nat, rows: nat)

  /** Ctrl+C: the CONTROL modifier is among the modifiers and the code is the character 'c'. */
  predicate IsInterrupt(key: KeyEvent) {
    Control in key.modifiers && key.code == Char('c')
  }

  /** What the shared event handler does with an event before any stage sees it. */
  datatype Action = Exit | Ignore | Deliver(key: KeyEvent)

  function Dispatch(event: Event): (a: Action)
    ensures a == Exit <==> event.Key? && IsInterrupt(event.key)
    ensures a == Ignore <==> !event.Key?
    ensures a.Deliver? ==> event == Key(a.key)
  {
    match event
    case Key(key) => if IsInterrupt(key) then Exit else Deliver(key)
    case _ => Ignore
  }

  /** A plain 'c', or any other character typed with CONTROL, is typing input and not an exit. */
  lemma OnlyControlCExits(c: char, modifiers: set<Modifier>)
    requires Control !in modifiers || c != 'c'
    ensures Dispatch(Key(KeyEvent(Char(c), modifiers))) == Deliver(KeyEvent(Char(c), modifiers))
  {
  }
}
