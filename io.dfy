/**
 * `SocketIO`, the telnet-friendly line framing of a session's connection.
 * Writing terminates a message with a newline if it has none and turns
 * every "\n" into "\r\n"; reading takes one line from what the peer sent
 * and strips its trailing "\r" and "\n" characters.  The connection is a
 * pair of strings: what the peer has sent and not yet been read, and
 * everything written so far.
 */
module LineIO {
  import opened Wrappers

  /** The message with a final "\n" added unless it already ends with one. */
  function Terminated(message: string): (t: string)
    ensures |t| > 0 && t[|t| - 1] == '\n'
    ensures t == message || t == message + "\n"
  {
    if |message| > 0 && message[|message| - 1] == '\n' then message else message + "\n"
  }

  /** `s.replace("\n", "\r\n")`. */
  function CrLf(s: string): string
    decreases |s|
  {
    if s == [] then []
    else (if s[0] == '\n' then "\r\n" else [s[0]]) + CrLf(s[1..])
  }

  /** The text `write` puts on the wire for `message` (before UTF-8 encoding). */
  function Frame(message: string): string {
    CrLf(Terminated(message))
  }

  /** The number of "\n" characters in `s`. */
  function Newlines(s: string): nat
    decreases |s|
  {
    if s == [] then 0 else (if s[0] == '\n' then 1 else 0) + Newlines(s[1..])
  }

  lemma {:induction false} CrLfAppend(a: string, b: string)
    ensures CrLf(a + b) == CrLf(a) + CrLf(b)
    decreases |a|
  {
    if a == [] {
      assert a + b == b;
    } else {
      assert (a + b)[1..] == a[1..] + b;
      CrLfAppend(a[1..], b);
    }
  }

  lemma {:induction false} NewlinesAppend(a: string, b: string)
    ensures Newlines(a + b) == Newlines(a) + Newlines(b)
    decreases |a|
  {
    if a == [] {
      assert a + b == b;
    } else {
      assert (a + b)[1..] == a[1..] + b;
      NewlinesAppend(a[1..], b);
    }
  }

  /** Text without a newline is sent unchanged. */
  lemma {:induction false} CrLfPlain(s: string)
    requires '\n' !in s
    ensures CrLf(s) == s
    decreases |s|
  {
    if s != [] {
      assert s == [s[0]] + s[1..];
      CrLfPlain(s[1..]);
    }
  }

  /** Replacing "\n" by "\r\n" neither adds nor drops a "\n". */
  lemma {:induction false} CrLfKeepsNewlines(s: string)
    ensures Newlines(CrLf(s)) == Newlines(s)
    decreases |s|
  {
    if s != [] {
      var head := if s[0] == '\n' then "\r\n" else [s[0]];
      NewlinesAppend(head, CrLf(s[1..]));
      CrLfKeepsNewlines(s[1..]);
    }
  }

  /** After the replacement every "\n" has a "\r" just before it. */
  lemma {:induction false} CrLfPrecedesEveryNewline(s: string)
    ensures forall i | 0 <= i < |CrLf(s)| && CrLf(s)[i] == '\n' :: i > 0 && CrLf(s)[i - 1] == '\r'
    decreases |s|
  {
    if s != [] {
      var head := if s[0] == '\n' then "\r\n" else [s[0]];
      var tail := CrLf(s[1..]);
      CrLfPrecedesEveryNewline(s[1..]);
      var r := head + tail;
      forall i | 0 <= i < |r| && r[i] == '\n' ensures i > 0 && r[i - 1] == '\r' {
        if i >= |head| {
          var j := i - |head|;
          assert tail[j] == '\n';
          assert r[i - 1] == tail[j - 1];
        }
      }
    }
  }

  /** The wire text of any message ends with "\r\n". */
  lemma FrameEndsWithCrLf(message: string)
    ensures |Frame(message)| >= 2 && Frame(message)[|Frame(message)| - 2..] == "\r\n"
  {
    var t := Terminated(message);
    var init := t[..|t| - 1];
    assert t == init + "\n";
    CrLfAppend(init, "\n");
    assert CrLf("\n") == "\r\n";
  }

  /** Every "\n" on the wire is the second half of a "\r\n". */
  lemma FrameCrBeforeLf(message: string)
    ensures forall i | 0 <= i < |Frame(message)| && Frame(message)[i] == '\n' :: i > 0 && Frame(message)[i - 1] == '\r'
  {
    CrLfPrecedesEveryNewline(Terminated(message));
  }

  /** The wire text has the message's newlines, plus the one `write` adds when missing. */
  lemma FrameNewlineCount(message: string)
    ensures Newlines(Frame(message)) == Newlines(message) + if |message| > 0 && message[|message| - 1] == '\n' then 0 else 1
  {
    CrLfKeepsNewlines(Terminated(message));
    NewlinesAppend(message, "\n");
  }

  /** A message without any newline goes out as itself followed by "\r\n". */
  lemma FrameSingleLine(message: string)
    requires '\n' !in message
    ensures Frame(message) == message + "\r\n"
  {
    CrLfAppend(message, "\n");
    CrLfPlain(message);
    assert CrLf("\n") == "\r\n";
  }

  predicate IsTerminator(c: char) {
    c == '\r' || c == '\n'
  }

  /** `line.rstrip("\r\n")`: drop every trailing "\r" and "\n". */
  function StripTerminators(line: string): (r: string)
    ensures |r| <= |line| && r == line[..|r|]
    ensures forall i | |r| <= i < |line| :: IsTerminator(line[i])
    ensures r == "" || !IsTerminator(r[|r| - 1])
    decreases |line|
  {
    if |line| > 0 && IsTerminator(line[|line| - 1]) then StripTerminators(line[..|line| - 1]) else line
  }

  /**
   * `rfile.readline()` on what the peer has sent: everything up to and
   * including the first "\n", or all of it when there is no "\n"; and the
   * rest, left for the next read.
   */
  function NextLine(inbound: string): (r: (string, string))
    ensures r.0 + r.1 == inbound
    ensures r.0 == "" <==> inbound == ""
    ensures forall i | 0 <= i < |r.0| - 1 :: r.0[i] != '\n'
    ensures r.1 != "" ==> r.0[|r.0| - 1] == '\n'
    decreases |inbound|
  {
    if inbound == [] then ("", "")
    else if inbound[0] == '\n' then ("\n", inbound[1..])
    else
      var (line, rest) := NextLine(inbound[1..]);
      ([inbound[0]] + line, rest)
  }

  class SocketIO {
    /** What the peer has sent that no `readline` has consumed yet. */
    var inbound: string
    /** Everything written to the connection so far. */
    var outbound: string

    constructor (received: string)
      ensures inbound == received && outbound == ""
    {
      inbound := received;
      outbound := "";
    }

    /** `write`: the framed message is appended to what has been sent. */
    method Write(message: string)
      modifies this
      ensures outbound == old(outbound) + Frame(message) && inbound == old(inbound)
    {
      var data := message;
      if !(|data| > 0 && data[|data| - 1] == '\n') {
        data := data + "\n";
      }
      outbound := outbound + CrLf(data);
    }

    /**
     * `readline(prompt)`: a non-empty prompt is written first; then one line
     * is taken.  Nothing left to read is an EOFError (None); otherwise the
     * line comes back without its trailing terminators.
     */
    method ReadLine(prompt: string) returns (r: Option<string>)
      modifies this
      ensures outbound == old(outbound) + if prompt == "" then "" else Frame(prompt)
      ensures r.None? <==> old(inbound) == ""
      ensures r.None? ==> inbound == old(inbound)
      ensures r.Some? ==> r.value == StripTerminators(NextLine(old(inbound)).0) && inbound == NextLine(old(inbound)).1
      ensures r.Some? ==> r.value == "" || !IsTerminator(r.value[|r.value| - 1])
    {
      if prompt != "" {
        Write(prompt);
      }
      var (line, rest) := NextLine(inbound);
      if line == "" {
        return None;
      }
      inbound := rest;
      r := Some(StripTerminators(line));
    }
  }
}
