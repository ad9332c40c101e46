/** `TextInput` (src/ui.py): the name-entry box.  Keyboard events are reduced
    to what `handle_event` distinguishes; the font, the rectangle and drawing
    are not part of this model. */
module TextBox {

  /** The key of a key-press event; `Typed` carries pygame's `event.unicode`
      text, which pygame makes one character long or empty. */
  datatype Key = Backspace | Return | Typed(unicode: string)

  datatype Event = KeyDown(key: Key) | OtherEvent

  /** What `handle_event` returns: 'submit' or None. */
  datatype Reply = Submit | NoReply

  /** A key press as pygame delivers it. */
  predicate WellFormed(e: Event) {
    e.KeyDown? && e.key.Typed? ==> |e.key.unicode| <= 1
  }

  /** `str.isprintable` for one character, on the Latin-1 range: control
      characters, the no-break space and the soft hyphen do not print. */
  predicate PrintableChar(c: char) {
    var n := c as int;
    !(n < 0x20 || (0x7F <= n && n <= 0x9F) || n == 0xA0 || n == 0xAD)
  }

  /** On ASCII, exactly the characters from the space to the tilde print. */
  lemma PrintableOnAscii(c: char)
    requires c as int < 0x80
    ensures PrintableChar(c) <==> ' ' <= c <= '~'
  {
  }

  /** `str.isprintable`: every character prints (true of the empty text). */
  predicate Printable(s: string) {
    forall i :: 0 <= i < |s| ==> PrintableChar(s[i])
  }

  /** Cursor blink period in milliseconds. */
  const CursorInterval: int := 500

  class TextInput {
    var text: string
    const maxLength: int
    var active: bool
    var cursorVisible: bool
    var cursorTimer: int

    /** The blink timer stays below one period. */
    ghost predicate Valid()
      reads this
    {
      cursorTimer < CursorInterval
    }

    /** `__init__`: an empty, active box with the cursor shown; the length cap
        defaults to 12 characters. */
    constructor (maxLength: int := 12)
      ensures Valid()
      ensures text == "" && this.maxLength == maxLength && active && cursorVisible && cursorTimer == 0
    {
      text := "";
      this.maxLength := maxLength;
      active := true;
      cursorVisible := true;
      cursorTimer := 0;
    }

    /** `handle_event`: only key presses reach an active box.  Backspace drops
        the last character (nothing on an empty text), Return answers Submit
        and keeps the text, and printable input is appended while the text is
        shorter than `maxLength`.  Everything else leaves the text alone. */
    method HandleEvent(e: Event) returns (reply: Reply)
      modifies this`text
      ensures reply == Submit <==> e.KeyDown? && active && e.key.Return?
      ensures !(e.KeyDown? && active) ==> text == old(text)
      ensures e.KeyDown? && active && e.key.Backspace? ==>
                text == if old(text) == "" then "" else old(text)[..|old(text)| - 1]
      ensures e.KeyDown? && active && e.key.Return? ==> text == old(text)
      ensures e.KeyDown? && active && e.key.Typed? ==>
                text == if |old(text)| < maxLength && Printable(e.key.unicode)
                        then old(text) + e.key.unicode else old(text)
      ensures WellFormed(e) && |old(text)| <= maxLength ==> |text| <= maxLength
    {
      reply := NoReply;
      if e.KeyDown? && active {
        match e.key
        case Backspace =>
          if text != "" {
            text := text[..|text| - 1];
          }
        case Return =>
          reply := Submit;
        case Typed(unicode) =>
          if |text| < maxLength && Printable(unicode) {
            text := text + unicode;
          }
      }
    }

    /** `update(dt)`: the blink timer adds `dt`; once it reaches the period the
        cursor flips and the timer restarts at 0. */
    method Update(dt: int)
      modifies this`cursorTimer, this`cursorVisible
      ensures Valid()
      ensures old(cursorTimer) + dt >= CursorInterval ==>
                cursorVisible == !old(cursorVisible) && cursorTimer == 0
      ensures old(cursorTimer) + dt < CursorInterval ==>
                cursorVisible == old(cursorVisible) && cursorTimer == old(cursorTimer) + dt
    {
      cursorTimer := cursorTimer + dt;
      if cursorTimer >= CursorInterval {
        cursorVisible := !cursorVisible;
        cursorTimer := 0;
      }
    }
  }
}
