/** The two pieces of page-script state that change step by step: the key buffer of the Konami
    code easter egg and the position of the typing animation. */
module Interactions {

  /** The key sequence that triggers the easter egg. */
  const KonamiSequence: seq<string> := [
    "ArrowUp", "ArrowUp", "ArrowDown", "ArrowDown", "ArrowLeft", "ArrowRight",
    "ArrowLeft", "ArrowRight", "KeyB", "KeyA"]

  /** The buffer keeps as many keys as the sequence has (`konamiSequence.length`). */
  const BufferSize: nat := 10

  /** One key press on the buffer: append, then drop the oldest key if it grew too long. */
  function PushKey(buffer: seq<string>, code: string): (b: seq<string>)
    ensures |b| == if |buffer| < BufferSize then |buffer| + 1 else |buffer|
    ensures b != [] && b[|b| - 1] == code
    ensures b[..|b| - 1] == buffer[|buffer| + 1 - |b|..]
  {
    var b := buffer + [code];
    if |b| > BufferSize then b[1..] else b
  }

  /** Pushing the last key onto a suffix of the earlier keys gives a suffix of all of them. */
  lemma PushKeySuffix(pressed: seq<string>, k: nat)
    requires k < |pressed|
    ensures var b := PushKey(pressed[k..|pressed| - 1], pressed[|pressed| - 1]);
            b == pressed[|pressed| - |b|..]
  {
    var grown := pressed[k..|pressed| - 1] + [pressed[|pressed| - 1]];
    assert grown == pressed[k..];
    if |grown| > BufferSize {
      assert grown[1..] == pressed[k + 1..];
    }
  }

  /** The buffer after the keys `pressed`, one press at a time from an empty buffer: the last
      ten keys pressed, or all of them while there are fewer. */
  function Buffered(pressed: seq<string>): (b: seq<string>)
    ensures |b| == if |pressed| < BufferSize then |pressed| else BufferSize
    ensures b == pressed[|pressed| - |b|..]
  {
    if pressed == [] then []
    else
      var prior := pressed[..|pressed| - 1];
      var last := pressed[|pressed| - 1];
      var before := Buffered(prior);
      var k := |prior| - |before|;
      assert before == pressed[k..|pressed| - 1];
      PushKeySuffix(pressed, k);
      var b := PushKey(before, last);
      b
  }

  /** The effect fires exactly when the last ten keys pressed are the Konami sequence. */
  lemma TriggerMeansSequence(pressed: seq<string>)
    ensures Buffered(pressed) == KonamiSequence <==>
            |pressed| >= BufferSize && pressed[|pressed| - BufferSize..] == KonamiSequence
  {
    assert |KonamiSequence| == BufferSize;
    BufferedIsTarget(pressed, KonamiSequence);
  }

  /** The buffer equals a ten-key `target` exactly when the last ten keys pressed are `target`. */
  lemma BufferedIsTarget(pressed: seq<string>, target: seq<string>)
    requires |target| == BufferSize
    ensures Buffered(pressed) == target <==>
            |pressed| >= BufferSize && pressed[|pressed| - BufferSize..] == target
  {
    var b := Buffered(pressed);
    if |pressed| < BufferSize {
      assert |b| < BufferSize;
    } else {
      assert b == pressed[|pressed| - BufferSize..];
    }
  }

  /** The `keydown` handler and its module-level key buffer. */
  class KonamiListener {
    var konamiCode: seq<string>
    /** Every key pressed since the page loaded. */
    ghost var pressed: seq<string>

    ghost predicate Valid()
      reads this
    {
      konamiCode == Buffered(pressed)
    }

    constructor ()
      ensures Valid() && pressed == [] && konamiCode == []
    {
      konamiCode := [];
      pressed := [];
    }

    /** Handle one key press; `triggered` is whether the rainbow animation starts. */
    method KeyDown(code: string) returns (triggered: bool)
      requires Valid()
      modifies this
      ensures Valid()
      ensures pressed == old(pressed) + [code]
      ensures |konamiCode| <= BufferSize
      ensures konamiCode == PushKey(old(konamiCode), code)
      ensures triggered <==> konamiCode == KonamiSequence
    {
      konamiCode := konamiCode + [code];
      if |konamiCode| > BufferSize {
        konamiCode := konamiCode[1..];
      }
      pressed := pressed + [code];
      assert pressed[..|pressed| - 1] == old(pressed);
      triggered := konamiCode == KonamiSequence;
    }
  }

  /** The lines the typing animation cycles through. */
  const Texts: seq<string> := [
    "Building the future, one exception at a time...",
    "Crafting exceptional digital experiences...",
    "Turning coffee into clean code...",
    "Solving complex problems with elegant solutions..."]

  /** The animation's position: which line, and how many of its characters are shown. */
  datatype Cursor = Cursor(textIndex: nat, charIndex: nat)

  predicate ValidCursor(c: Cursor) {
    c.textIndex < |Texts| && c.charIndex <= |Texts[c.textIndex]|
  }

  /** One `type()` step (with the reset that follows the end of a line): show one more
      character, or at the end of the line start the next line from its beginning. */
  function Next(c: Cursor): (d: Cursor)
    requires ValidCursor(c)
    ensures ValidCursor(d)
  {
    if c.charIndex < |Texts[c.textIndex]| then Cursor(c.textIndex, c.charIndex + 1)
    else Cursor((c.textIndex + 1) % |Texts|, 0)
  }

  /** The position after `n` steps. */
  function Steps(c: Cursor, n: nat): (d: Cursor)
    requires ValidCursor(c)
    ensures ValidCursor(d)
    decreases n
  {
    if n == 0 then c else Steps(Next(c), n - 1)
  }

  /** From any position in a line, the steps left in it plus one lead to the start of the next
      line: the animation types every line in full and then moves on, cyclically. */
  lemma {:induction false} FinishLine(t: nat, k: nat)
    requires t < |Texts| && k <= |Texts[t]|
    ensures Steps(Cursor(t, k), |Texts[t]| - k + 1) == Cursor((t + 1) % |Texts|, 0)
    decreases |Texts[t]| - k
  {
    if k < |Texts[t]| {
      FinishLine(t, k + 1);
    }
  }

  /** The typing animation: its position and the text on screen. */
  class Typewriter {
    var textIndex: nat
    var charIndex: nat
    var shown: string

    ghost predicate Valid()
      reads this
    {
      ValidCursor(Cursor(textIndex, charIndex)) &&
      (charIndex > 0 ==> shown == Texts[textIndex][..charIndex])
    }

    constructor ()
      ensures Valid() && textIndex == 0 && charIndex == 0 && shown == ""
    {
      textIndex, charIndex, shown := 0, 0, "";
    }

    /** One step of `type()`: either the next prefix of the line goes on screen, or the cursor
        moves to the start of the next line and the screen keeps the full line. */
    method Type()
      requires Valid()
      modifies this
      ensures Valid()
      ensures Cursor(textIndex, charIndex) == Next(old(Cursor(textIndex, charIndex)))
      ensures old(charIndex) < |Texts[old(textIndex)]| ==> shown == Texts[old(textIndex)][..old(charIndex) + 1]
      ensures old(charIndex) == |Texts[old(textIndex)]| ==> shown == old(shown)
    {
      if charIndex < |Texts[textIndex]| {
        shown := Texts[textIndex][..charIndex + 1];
        charIndex := charIndex + 1;
      } else {
        charIndex := 0;
        textIndex := (textIndex + 1) % |Texts|;
      }
    }
  }
}
