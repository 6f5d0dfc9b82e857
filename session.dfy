/**
 * The line discipline both consoles share: each line read at the prompt
 * is stripped, a blank one is skipped, otherwise it splits on whitespace
 * into a lowercased command word and its arguments.  The session ends on
 * `exit` or `quit`, on an interrupt, or when input runs out (EOF).
 */
module Session {
  import opened Wrappers
  import opened Text

  /**
   * One event at the prompt: a line typed at clock reading `now` (seconds),
   * or a keyboard interrupt.  Running out of inputs is end of file.
   */
  datatype Input = Line(text: string, now: int) | Interrupt

  const EofFarewell := "\nGoodbye!"
  const InterruptFarewell := "\n\nGoodbye!"
  const ExitFarewell := "See you next time. \U{2615}"

  predicate NoUpperCase(s: string) {
    forall i | 0 <= i < |s| :: !('A' <= s[i] <= 'Z')
  }

  /**
   * `raw.strip()`, then `parts = raw.split()`: None for a blank line (the
   * loop `continue`s); otherwise `parts[0].lower()` and `parts[1:]`.
   * Splitting on whitespace ignores the whitespace `strip()` removes, so
   * the words are read from the line itself (`TokensSplit`).
   */
  function Tokens(line: string): (r: Option<(string, seq<string>)>)
    ensures r.None? <==> Blank(line)
    ensures r.Some? ==> |r.value.0| > 0 && NoUpperCase(r.value.0)
    ensures r.Some? ==> forall i | 0 <= i < |r.value.1| :: IsWord(r.value.1[i])
  {
    var words := Words(line);
    if words == [] then None
    else
      LowerHasNoUpperCase(words[0]);
      Some((Lower(words[0]), words[1..]))
  }

  lemma LowerHasNoUpperCase(s: string)
    ensures NoUpperCase(Lower(s))
  {
    var r := Lower(s);
    forall i | 0 <= i < |r| ensures !('A' <= r[i] <= 'Z') {
      assert r[i] == LowerChar(s[i]);
    }
  }

  /**
   * What `line.strip().split()` yields, taken apart: a line is skipped
   * exactly when `strip()` leaves nothing of it; otherwise the command is
   * the lowercased first word of the stripped line and the arguments are
   * the words after it.
   */
  lemma TokensSplit(line: string)
    ensures Tokens(line).None? <==> Trim(line) == ""
    ensures Tokens(line).Some? ==> Tokens(line).value == (Lower(Words(Trim(line))[0]), Words(Trim(line))[1..])
  {
    WordsOfTrim(line);
  }

  /** A line holding one word is that word, lowercased, with no arguments. */
  lemma SingleWordTokens(w: string)
    requires IsWord(w)
    ensures Tokens(w) == Some((Lower(w), []))
  {
    WordsOfWord(w);
  }

  /** A command word is matched without regard to ASCII case: "MENU" is "menu". */
  lemma UpperCaseMenu()
    ensures Tokens("MENU") == Some(("menu", []))
  {
    var w := "MENU";
    assert IsWord(w) && Lower(w) == "menu";
    SingleWordTokens(w);
  }

  /**
   * The id argument of `status`, `ready` and `menu-remove`: `int(args[0])`,
   * None when there is no argument or `int()` raises ValueError.
   */
  function IdArg(args: seq<string>): (r: Option<int>)
    ensures r.Some? <==> |args| > 0 && ParseInt(args[0]).Some?
    ensures r.Some? ==> Some(r.value) == ParseInt(args[0])
  {
    if |args| == 0 then None else ParseInt(args[0])
  }

  /** The line written when the id argument is missing (`usage`) or not an int. */
  function IdArgError(args: seq<string>, usage: string, notInteger: string): string {
    if |args| == 0 then usage else notInteger
  }

  /** What both consoles write for an order id the store does not hold. */
  function NoOrderMessage(orderId: int): string {
    "No order found with id " + IntStr(orderId) + "."
  }

  /** The words that end a session. */
  predicate Ends(command: string) {
    command == "exit" || command == "quit"
  }

  /** Whether the loop `break`s after this input. */
  predicate Stops(input: Input) {
    || input.Interrupt?
    || (Tokens(input.text).Some? && Ends(Tokens(input.text).value.0))
  }

  /** The position of the first input that ends the session, or the number of inputs (EOF). */
  function StopAt(inputs: seq<Input>): (k: nat)
    ensures k <= |inputs|
    ensures forall i | 0 <= i < k :: !Stops(inputs[i])
    ensures k < |inputs| ==> Stops(inputs[k])
    decreases |inputs|
  {
    if inputs == [] then 0
    else if Stops(inputs[0]) then 0
    else 1 + StopAt(inputs[1..])
  }

  /** How many inputs a session reads: through the one that ends it, or all of them. */
  function Consumed(inputs: seq<Input>): (n: nat)
    ensures n <= |inputs|
  {
    if StopAt(inputs) < |inputs| then StopAt(inputs) + 1 else |inputs|
  }

  /** The farewell written by the input that ends the session. */
  function Goodbye(input: Input): string {
    if input.Interrupt? then InterruptFarewell else ExitFarewell
  }

  /** The last message of a session: EOF, interrupt or `exit`/`quit` decide it. */
  function Farewell(inputs: seq<Input>): string {
    var k := StopAt(inputs);
    if k == |inputs| then EofFarewell else Goodbye(inputs[k])
  }

  /** The first input that ends the session is the last one read. */
  lemma StopAtFound(inputs: seq<Input>, i: nat)
    requires i < |inputs| && i <= StopAt(inputs) && Stops(inputs[i])
    ensures Consumed(inputs) == i + 1
    ensures Farewell(inputs) == Goodbye(inputs[i])
  {
  }

  /** A log ending with the stopping input's farewell ends with the session's farewell. */
  lemma StopAtLast(inputs: seq<Input>, i: nat, log: seq<string>)
    requires i < |inputs| && i <= StopAt(inputs) && Stops(inputs[i])
    requires |log| > 0 && log[|log| - 1] == Goodbye(inputs[i])
    ensures Consumed(inputs) == i + 1 && log[|log| - 1] == Farewell(inputs)
  {
    StopAtFound(inputs, i);
  }

  /** An input that does not end the session is followed by another read. */
  lemma StopAtSkip(inputs: seq<Input>, i: nat)
    requires i < |inputs| && i <= StopAt(inputs) && !Stops(inputs[i])
    ensures i + 1 <= StopAt(inputs)
  {
  }

  /** Running out of inputs ends the session with the EOF farewell. */
  lemma StopAtEnd(inputs: seq<Input>)
    requires StopAt(inputs) == |inputs|
    ensures Consumed(inputs) == |inputs| && Farewell(inputs) == EofFarewell
  {
  }

  /** `log` is `prefix` followed by zero or more further messages. */
  predicate Extends(log: seq<string>, prefix: seq<string>) {
    |prefix| <= |log| && log[..|prefix|] == prefix
  }

  lemma ExtendsTransitive(a: seq<string>, b: seq<string>, c: seq<string>)
    requires Extends(b, a) && Extends(c, b)
    ensures Extends(c, a)
  {
    assert c[..|a|] == c[..|b|][..|a|];
  }

  lemma ExtendsSelf(log: seq<string>)
    ensures Extends(log, log)
  {
    assert log[..|log|] == log;
  }

  lemma ExtendsBy(log: seq<string>, more: seq<string>)
    ensures Extends(log + more, log)
  {
    assert (log + more)[..|log|] == log;
  }

  lemma ExtendsAppend(log: seq<string>, prefix: seq<string>, more: seq<string>)
    requires Extends(log, prefix)
    ensures Extends(log + more, prefix)
  {
    assert (log + more)[..|prefix|] == log[..|prefix|];
  }

  /** A blank line never ends a session. */
  lemma BlankLineContinues(text: string, now: int)
    requires Blank(text)
    ensures !Stops(Line(text, now))
  {
  }
}
