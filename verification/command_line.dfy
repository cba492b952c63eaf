/**
 * Command lines: the arguments handed to a spawned process and the text a
 * failed command is reported as (the command, a space, then the arguments
 * joined with single spaces).
 */
module CommandLine {

  /** A spawn argument: a string, or JavaScript's `undefined`. */
  datatype Arg = Text(s: string) | Undefined

  /** A process to spawn in the project directory. */
  datatype Command = Command(executable: string, args: seq<Arg>)

  /** How `Array.prototype.join` renders one element: `undefined` as the empty string. */
  function ArgText(a: Arg): string {
    match a
    case Text(s) => s
    case Undefined => ""
  }

  function Texts(ss: seq<string>): (args: seq<Arg>)
    ensures |args| == |ss|
    ensures forall i :: 0 <= i < |ss| ==> args[i] == Text(ss[i])
  {
    if |ss| == 0 then [] else [Text(ss[0])] + Texts(ss[1..])
  }

  /** `args.join(' ')`. */
  function Join(args: seq<Arg>): string {
    if |args| == 0 then ""
    else if |args| == 1 then ArgText(args[0])
    else ArgText(args[0]) + " " + Join(args[1..])
  }

  /** The text a command that exits non-zero is reported as. */
  function Render(c: Command): string {
    c.executable + " " + Join(c.args)
  }

  predicate NoSpace(w: string) {
    ' ' !in w
  }

  /** `s.split(' ')`: the pieces between single spaces, empty pieces included. */
  function Split(s: string): (parts: seq<string>)
    ensures |parts| >= 1
    ensures forall i :: 0 <= i < |parts| ==> NoSpace(parts[i])
    decreases |s|
  {
    if |s| == 0 then [""]
    else if s[0] == ' ' then [""] + Split(s[1..])
    else
      var rest := Split(s[1..]);
      [[s[0]] + rest[0]] + rest[1..]
  }

  lemma {:induction false} SplitWord(w: string)
    requires NoSpace(w)
    ensures Split(w) == [w]
    decreases |w|
  {
    if |w| > 0 {
      SplitWord(w[1..]);
      assert [w[0]] + w[1..] == w;
    }
  }

  lemma {:induction false} SplitAfterWord(w: string, rest: string)
    requires NoSpace(w)
    ensures Split(w + " " + rest) == [w] + Split(rest)
    decreases |w|
  {
    var s := w + " " + rest;
    if |w| == 0 {
      assert s[1..] == rest;
    } else {
      assert s[0] == w[0];
      assert s[1..] == w[1..] + " " + rest;
      SplitAfterWord(w[1..], rest);
      assert [w[0]] + w[1..] == w;
    }
  }

  /** Joining words without spaces and splitting the result gives the words back. */
  lemma {:induction false} JoinSplitRoundTrip(words: seq<string>)
    requires |words| >= 1
    requires forall i :: 0 <= i < |words| ==> NoSpace(words[i])
    ensures Split(Join(Texts(words))) == words
    decreases |words|
  {
    var args := Texts(words);
    if |words| == 1 {
      SplitWord(words[0]);
    } else {
      assert args[1..] == Texts(words[1..]);
      JoinSplitRoundTrip(words[1..]);
      SplitAfterWord(words[0], Join(args[1..]));
      assert [words[0]] + words[1..] == words;
    }
  }

  /**
   * A failure report names its command unambiguously: when neither the
   * executable nor an argument holds a space, splitting the reported text
   * recovers the executable followed by the arguments.
   */
  lemma RenderSplitRoundTrip(executable: string, words: seq<string>)
    requires NoSpace(executable) && |words| >= 1
    requires forall i :: 0 <= i < |words| ==> NoSpace(words[i])
    ensures Split(Render(Command(executable, Texts(words)))) == [executable] + words
  {
    JoinSplitRoundTrip(words);
    SplitAfterWord(executable, Join(Texts(words)));
  }
}
