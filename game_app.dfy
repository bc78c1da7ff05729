/** Reading the player's commands: the game takes the first character of an input line,
    discards the rest of the line, and maps a fixed set of keys to game events. */
module GameApp {
  import opened Wrappers

  datatype GameEvent = Search | Quit | Left | Right | Up | Down | Noop

  /** The event a command key stands for; None for any other character. */
  function KeyEvent(c: char): (r: Option<GameEvent>)
    ensures r != Some(Noop)
  {
    match c
    case 'Q' => Some(Quit)
    case 'w' => Some(Up)
    case 'a' => Some(Left)
    case 's' => Some(Down)
    case 'd' => Some(Right)
    case 'S' => Some(Search)
    case _ => None
  }

  /** The key that produces each event other than Noop. */
  function KeyOf(e: GameEvent): char
    requires e != Noop
  {
    match e
    case Quit => 'Q'
    case Up => 'w'
    case Left => 'a'
    case Down => 's'
    case Right => 'd'
    case Search => 'S'
  }

  /** Every event but Noop has exactly one key, and KeyOf finds it. */
  lemma KeyEventRoundTrip(c: char, e: GameEvent)
    requires e != Noop
    ensures KeyEvent(KeyOf(e)) == Some(e)
    ensures KeyEvent(c) == Some(e) ==> c == KeyOf(e)
  {
  }

  /** The line length limit of the discard that follows each read character. */
  const IgnoreLimit: nat := 100

  /** How many characters a discard of at most limit characters up to and including the
      next newline takes from the front of s (the behaviour of std::istream::ignore). */
  function IgnoreCount(s: string, limit: nat): (k: nat)
    ensures k <= |s| && k <= limit
  {
    if limit == 0 || s == [] then 0
    else if s[0] == '\n' then 1
    else 1 + IgnoreCount(s[1..], limit - 1)
  }

  /** With no newline among the first limit characters the discard takes exactly limit
      characters. */
  lemma {:induction false} IgnoreAtLimit(s: string, limit: nat)
    requires limit <= |s| && '\n' !in s[..limit]
    ensures IgnoreCount(s, limit) == limit
  {
    if limit > 0 {
      assert s[0] in s[..limit];
      assert s[1..][..limit - 1] == s[..limit][1..];
      IgnoreAtLimit(s[1..], limit - 1);
    }
  }

  /** When the input ends before the limit and holds no newline, the discard takes all
      of it. */
  lemma {:induction false} IgnoreToEnd(s: string, limit: nat)
    requires '\n' !in s && |s| < limit
    ensures IgnoreCount(s, limit) == |s|
  {
    if s != [] {
      assert s[0] in s;
      IgnoreToEnd(s[1..], limit - 1);
    }
  }

  /** The result of reading one event: the event and the number of characters consumed. */
  datatype Reading = Reading(event: GameEvent, consumed: nat)

  /** Reading an event from the remaining input s: take one character, discard up to the
      end of its line, and return its event if it is a command key; otherwise go on with
      what is left. At the end of the input the event is Noop. */
  function EventFrom(s: string): (r: Reading)
    ensures r.consumed <= |s|
    decreases |s|
  {
    if s == [] then Reading(Noop, 0)
    else
      var k := 1 + IgnoreCount(s[1..], IgnoreLimit);
      match KeyEvent(s[0])
      case Some(e) => Reading(e, k)
      case None =>
        var rest := EventFrom(s[k..]);
        Reading(rest.event, k + rest.consumed)
  }

  /** Reads the next event from input, starting at position start (the stream position),
      and returns it with the position after the characters consumed. */
  method GetEvent(input: string, start: nat) returns (ev: GameEvent, next: nat)
    requires start <= |input|
    ensures start <= next <= |input|
    ensures EventFrom(input[start..]) == Reading(ev, next - start)
  {
    var pos := start;
    while pos < |input|
      invariant start <= pos <= |input|
      invariant EventFrom(input[start..]).event == EventFrom(input[pos..]).event
      invariant EventFrom(input[start..]).consumed == pos - start + EventFrom(input[pos..]).consumed
      decreases |input| - pos
    {
      var c := input[pos];
      ghost var here := input[pos..];
      assert here[1..] == input[pos + 1..];
      var k := 1 + IgnoreCount(input[pos + 1..], IgnoreLimit);
      assert here[k..] == input[pos + k..];
      pos := pos + k;
      var key := KeyEvent(c);
      if key.Some? {
        return key.value, pos;
      }
    }
    return Noop, pos;
  }

  /** The input formed by lines, each followed by a newline. */
  function Join(lines: seq<string>): string {
    if lines == [] then "" else lines[0] + "\n" + Join(lines[1..])
  }

  /** Lines the discard always consumes completely: not empty, no newline inside, and at
      most IgnoreLimit characters long. */
  ghost predicate ShortLines(lines: seq<string>) {
    forall i :: 0 <= i < |lines| ==> 1 <= |lines[i]| <= IgnoreLimit && '\n' !in lines[i]
  }

  /** The index of the first line that starts with a command key; |lines| if none does. */
  function CommandIndex(lines: seq<string>): (k: nat)
    requires ShortLines(lines)
    ensures k <= |lines|
    ensures k < |lines| ==> KeyEvent(lines[k][0]).Some?
    ensures forall i :: 0 <= i < k ==> KeyEvent(lines[i][0]).None?
  {
    if lines == [] then 0
    else if KeyEvent(lines[0][0]).Some? then 0
    else 1 + CommandIndex(lines[1..])
  }

  /** The discard takes a short line's remainder and its newline, and nothing more. */
  lemma {:induction false} IgnoreThroughNewline(t: string, rest: string, limit: nat)
    requires '\n' !in t && |t| < limit
    ensures IgnoreCount(t + "\n" + rest, limit) == |t| + 1
  {
    if t != [] {
      assert (t + "\n" + rest)[1..] == t[1..] + "\n" + rest;
      IgnoreThroughNewline(t[1..], rest, limit - 1);
    }
  }

  /** Reading from input that starts with a short line: the line's first character
      decides, and the whole line with its newline is consumed before going on. */
  lemma ReadShortLine(l: string, rest: string)
    requires 1 <= |l| <= IgnoreLimit && '\n' !in l
    ensures var s := EventFrom(l + "\n" + rest);
      if KeyEvent(l[0]).Some? then s == Reading(KeyEvent(l[0]).value, |l| + 1)
      else s == Reading(EventFrom(rest).event, |l| + 1 + EventFrom(rest).consumed)
  {
    var s := l + "\n" + rest;
    assert s[1..] == l[1..] + "\n" + rest;
    IgnoreThroughNewline(l[1..], rest, IgnoreLimit);
    assert s[|l| + 1..] == rest;
  }

  /** On input made of short lines, reading an event returns the event of the first line
      that starts with a command key and consumes the input up to the end of that line;
      when no line does, it consumes all the input and returns Noop. */
  lemma {:induction false} EventFromLines(lines: seq<string>)
    requires ShortLines(lines)
    ensures var k := CommandIndex(lines);
      EventFrom(Join(lines)) ==
        if k == |lines| then Reading(Noop, |Join(lines)|)
        else Reading(KeyEvent(lines[k][0]).value, |Join(lines[..k + 1])|)
  {
    if lines != [] {
      var l := lines[0];
      assert Join(lines) == l + "\n" + Join(lines[1..]);
      ReadShortLine(l, Join(lines[1..]));
      assert ShortLines(lines[1..]);
      EventFromLines(lines[1..]);
      var k := CommandIndex(lines);
      if k > 0 && k < |lines| {
        assert lines[..k + 1] == [l] + lines[1..][..k];
        assert Join(lines[..k + 1]) == l + "\n" + Join(lines[1..][..k]);
      } else if k == 0 {
        assert lines[..1] == [l];
        assert Join(lines[..1]) == l + "\n" + Join([]);
      }
    }
  }

  /** A line longer than the limit is not consumed whole: after a first character that is
      no command (a letter such as 'x', or the newline of an empty line) and 100 further
      characters the discard stops, and the Q that follows is read as a command. */
  lemma LongLineTailIsRead(c: char)
    requires KeyEvent(c).None?
    ensures EventFrom([c] + seq(100, _ => 'y') + ['Q', '\n']) == Reading(Quit, 103)
  {
    var s := [c] + seq(100, _ => 'y') + ['Q', '\n'];
    assert s[0] == c;
    assert s[1..][..IgnoreLimit] == seq(100, _ => 'y');
    IgnoreAtLimit(s[1..], IgnoreLimit);
    var tail := ['Q', '\n'];
    assert s[101..] == tail;
    assert tail[1..] == ['\n'];
    assert IgnoreCount(tail[1..], IgnoreLimit) == 1;
    assert EventFrom(tail) == Reading(Quit, 2);
  }

  /** An empty line is read as the newline character, and the discard that follows it
      swallows the next line when that line is shorter than the limit: "\nQ\n" yields
      Noop, not Quit. */
  lemma EmptyLineSwallowsNextLine()
    ensures EventFrom("\nQ\n") == Reading(Noop, 3)
  {
    var s := "\nQ\n";
    assert s[1..] == "Q\n";
    assert IgnoreCount("Q\n", IgnoreLimit) == 2 by {
      assert "Q\n"[1..] == "\n";
    }
    assert s[3..] == [];
  }

  /** After an empty line, a following line of fewer than IgnoreLimit characters is
      discarded whole, and reading goes on after it. */
  lemma EmptyLineSkipsShortLine(l: string, rest: string)
    requires |l| < IgnoreLimit && '\n' !in l
    ensures EventFrom("\n" + l + "\n" + rest)
            == Reading(EventFrom(rest).event, |l| + 2 + EventFrom(rest).consumed)
  {
    var s := "\n" + l + "\n" + rest;
    assert s[1..] == l + "\n" + rest;
    IgnoreThroughNewline(l, rest, IgnoreLimit);
    assert s[|l| + 2..] == rest;
  }
}
