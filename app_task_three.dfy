/** The body of the uC/OS-III task APP_TaskThree (app_task_three.c): each pass moves
    the lit segment of the LCD ring one step round, and each character received from
    the serial queue scrolls into the right-hand end of a seven-character display text.

    The two static variables of the task are the fields of class TaskThree and one
    pass of the task's loop is Step; the queue poll becomes the optional character it
    is given. The pure functions below say what a run of passes does to the text. */
module AppTaskThree {
  import opened Wrappers

  /** APPDEF_LCD_TXT_SIZE: the characters the segment LCD shows. */
  const LcdTextSize: int := 7

  /** Segments of the LCD ring; ringPos counts round them. */
  const RingSegments: int := 8

  /** The initialiser of taskStringBuffer: the text "uC/OS-3" and its terminator. */
  const InitialBuffer: seq<char> := ['u', 'C', '/', 'O', 'S', '-', '3', '\0']

  /** The text after one character has come in: every character moves one place to
      the left, the first drops out and `c` takes the last place. */
  function Shifted(text: seq<char>, c: char): (r: seq<char>)
    requires |text| > 0
    ensures |r| == |text| && r[|r| - 1] == c
    ensures forall i :: 0 <= i < |text| - 1 ==> r[i] == text[i + 1]
  {
    text[1..] + [c]
  }

  /** The text after the characters of `msgs` have come in, first to last. */
  function Slide(text: seq<char>, msgs: seq<char>): (r: seq<char>)
    requires |text| > 0
    ensures |r| == |text|
    decreases |msgs|
  {
    if msgs == [] then text else Slide(Shifted(text, msgs[0]), msgs[1..])
  }

  /** The characters among the queue polls' results, in the order they came. */
  function Received(polls: seq<Option<char>>): (r: seq<char>)
    ensures |r| <= |polls|
  {
    if polls == [] then []
    else
      var last := polls[|polls| - 1];
      Received(polls[..|polls| - 1]) + (if last.Some? then [last.value] else [])
  }

  /** Received keeps exactly the messages: every character it holds was delivered by
      some poll, every delivered character is among them, and with a message on every
      poll none is dropped. */
  lemma {:induction false} ReceivedMessages(polls: seq<Option<char>>)
    ensures forall i :: 0 <= i < |Received(polls)| ==> Some(Received(polls)[i]) in polls
    ensures forall k :: 0 <= k < |polls| && polls[k].Some? ==> polls[k].value in Received(polls)
    ensures (forall k :: 0 <= k < |polls| ==> polls[k].Some?) ==> |Received(polls)| == |polls|
    decreases |polls|
  {
    if polls != [] {
      var init := polls[..|polls| - 1];
      ReceivedMessages(init);
      assert polls == init + [polls[|polls| - 1]];
    }
  }

  /** The display is a sliding window: after `msgs`, it holds the last |text|
      characters of the original text followed by the messages. */
  lemma {:induction false} SlideWindow(text: seq<char>, msgs: seq<char>)
    requires |text| > 0
    ensures Slide(text, msgs) == (text + msgs)[|msgs|..]
    decreases |msgs|
  {
    if msgs != [] {
      var next := Shifted(text, msgs[0]);
      SlideWindow(next, msgs[1..]);
      assert text + msgs == [text[0]] + (next + msgs[1..]);
    }
  }

  /** One more message shifts the window once more. */
  lemma SlideSnoc(text: seq<char>, msgs: seq<char>, c: char)
    requires |text| > 0
    ensures Slide(text, msgs + [c]) == Shifted(Slide(text, msgs), c)
  {
    SlideWindow(text, msgs + [c]);
    SlideWindow(text, msgs);
    assert text + (msgs + [c]) == (text + msgs) + [c];
  }

  class TaskThree {
    /** The static taskStringBuffer: seven display characters and a terminator. */
    var taskStringBuffer: array<char>
    /** The static ringPos: the lit ring segment. */
    var ringPos: int

    ghost predicate Valid()
      reads this
    {
      taskStringBuffer.Length == LcdTextSize + 1 && 0 <= ringPos < RingSegments
    }

    /** The text on display: the buffer before its terminator. */
    ghost function Text(): seq<char>
      reads this, taskStringBuffer
      requires Valid()
    {
      taskStringBuffer[..LcdTextSize]
    }

    /** The static variables as initialised. */
    constructor ()
      ensures Valid() && fresh(taskStringBuffer)
      ensures taskStringBuffer[..] == InitialBuffer && ringPos == 0
    {
      taskStringBuffer := new char[LcdTextSize + 1](i requires 0 <= i < LcdTextSize + 1 => InitialBuffer[i]);
      ringPos := 0;
    }

    /** One pass of the task's loop: advance ringPos round the ring and, if the queue
        poll returned a character, shift the text left in place and append it. The
        terminator is never touched. */
    method Step(msg: Option<char>)
      requires Valid()
      modifies this`ringPos, taskStringBuffer
      ensures Valid()
      ensures ringPos == (old(ringPos) + 1) % RingSegments
      ensures msg.None? ==> taskStringBuffer[..] == old(taskStringBuffer[..])
      ensures msg.Some? ==>
        forall i :: 0 <= i < LcdTextSize - 1 ==> taskStringBuffer[i] == old(taskStringBuffer[i + 1])
      ensures msg.Some? ==> taskStringBuffer[LcdTextSize - 1] == msg.value
      ensures taskStringBuffer[LcdTextSize] == old(taskStringBuffer[LcdTextSize])
      ensures msg.Some? ==> Text() == Shifted(old(Text()), msg.value)
    {
      ringPos := ringPos + 1;
      if ringPos == RingSegments {
        ringPos := 0;
      }
      if msg.Some? {
        for indxChar := 0 to LcdTextSize
          modifies taskStringBuffer
          invariant forall i :: 0 <= i < indxChar ==> taskStringBuffer[i] == old(taskStringBuffer[i + 1])
          invariant forall i :: indxChar <= i < LcdTextSize + 1 ==> taskStringBuffer[i] == old(taskStringBuffer[i])
        {
          taskStringBuffer[indxChar] := taskStringBuffer[indxChar + 1];
        }
        taskStringBuffer[LcdTextSize - 1] := msg.value;
      }
    }
  }

  /** The task from its initial state through one pass per queue poll in `polls`: the
      display shows the last seven of "uC/OS-3" followed by the received characters,
      the terminator stays in place, and the ring has gone round once per pass. */
  method RunTask(polls: seq<Option<char>>) returns (text: seq<char>, terminator: char, ringPos: int)
    ensures text == (InitialBuffer[..LcdTextSize] + Received(polls))[|Received(polls)|..]
    ensures terminator == '\0'
    ensures ringPos == |polls| % RingSegments
  {
    var task := new TaskThree();
    for i := 0 to |polls|
      invariant task.Valid() && fresh(task.taskStringBuffer)
      invariant task.Text() == Slide(InitialBuffer[..LcdTextSize], Received(polls[..i]))
      invariant task.taskStringBuffer[LcdTextSize] == '\0'
      invariant task.ringPos == i % RingSegments
    {
      assert polls[..i + 1][..i] == polls[..i];
      ghost var before := task.Text();
      task.Step(polls[i]);
      if polls[i].Some? {
        assert Received(polls[..i + 1]) == Received(polls[..i]) + [polls[i].value];
        SlideSnoc(InitialBuffer[..LcdTextSize], Received(polls[..i]), polls[i].value);
      } else {
        assert Received(polls[..i + 1]) == Received(polls[..i]) + [] == Received(polls[..i]);
        assert task.Text() == before;
      }
    }
    assert polls[..|polls|] == polls;
    SlideWindow(InitialBuffer[..LcdTextSize], Received(polls));
    text := task.taskStringBuffer[..LcdTextSize];
    terminator := task.taskStringBuffer[LcdTextSize];
    ringPos := task.ringPos;
  }
}
