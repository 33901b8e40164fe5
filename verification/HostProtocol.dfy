/** The text protocol between host and firmware: what `MotorDriver` sends is
    what the shell dispatches, and what the firmware answers is what the host
    reads. */
module HostProtocol {
  import opened Decimal
  import opened CommandShell

  // ----- the host side ----------------------------------------------------------

  /** A command of two numbers. */
  function TwoNumbers(name: char, a: int, b: int): string { [name] + " " + ToString(a) + " " + ToString(b) }

  /** The message `SetMotorValues` writes. */
  function MotorMessage(a: int, b: int): string { TwoNumbers('m', a, b) }

  function SetMotorValues(a: int, b: int): string { MotorMessage(a, b) + [CR] }

  /** `std::string::find` of one character. */
  function Find(s: string, c: char): int {
    if s == "" then -1 else if s[0] == c then 0
    else var rest := Find(s[1..], c); if rest < 0 then -1 else rest + 1
  }

  /** `ReadEncoderValues` on a response.  With no delimiter both tokens are the
      whole response: `npos + 1` wraps to 0. */
  function EncoderValues(response: string): (int, int)
  {
    var delPos := Find(response, ' ');
    FindInRange(response, ' ');
    if delPos < 0 then (AtoI(response), AtoI(response))
    else (AtoI(response[..delPos]), AtoI(response[delPos + 1..]))
  }

  lemma {:induction false} FindInRange(s: string, c: char)
    ensures -1 <= Find(s, c) < |s|
  {
    if s != "" { FindInRange(s[1..], c); }
  }

  lemma {:induction false} FindFirst(a: string, c: char, rest: string)
    requires c !in a
    ensures Find(a + [c] + rest, c) == |a|
  {
    var s := a + [c] + rest;
    if a != "" {
      assert s[1..] == a[1..] + [c] + rest;
      FindFirst(a[1..], c, rest);
    }
  }

  // ----- the firmware side --------------------------------------------------------

  /** What the read-encoders command prints. */
  function EncoderReply(left: int, right: int): string { ToString(left) + " " + ToString(right) + [CR, LF] }

  // ----- there and back ---------------------------------------------------------------

  lemma {:induction false} CStringOfText(m: string)
    requires NUL !in m
    ensures CString(m + [NUL]) == m
  {
    assert (m + [NUL])[..|m|] == m;
    CStringIs(m + [NUL], |m|);
  }

  lemma TwoNumbersShape(name: char, a: int, b: int)
    requires name in {'m', 'o'}
    requires -0x8000_0000 <= a < 0x8000_0000 && -0x8000_0000 <= b < 0x8000_0000
    ensures |TwoNumbers(name, a, b)| <= 25
    ensures forall c :: c in TwoNumbers(name, a, b) ==> c != CR && c != LF && c != NUL
  {
    Int32Length(a); Int32Length(b);
    ToStringShape(a); ToStringShape(b);
    hide ToString;
  }

  lemma TwoNumbersTokens(name: char, a: int, b: int)
    requires name != ' '
    ensures Tokens(TwoNumbers(name, a, b)) == [[name], ToString(a), ToString(b)]
  {
    ToStringShape(a); ToStringShape(b);
    hide ToString, Tokens;
    var x, y := ToString(a), ToString(b);
    assert TwoNumbers(name, a, b) == [name] + (" " + (x + (" " + y)));
    FirstToken([name], " " + (x + (" " + y)));
    LeadingSpace(x + (" " + y));
    FirstToken(x, " " + y);
    LeadingSpace(y);
    assert y == y + "";
    FirstToken(y, "");
    NoTokens();
  }

  lemma LeadingSpace(s: string)
    ensures Tokens(" " + s) == Tokens(s)
  {
    SpaceFirst(" " + s);
    assert (" " + s)[1..] == s;
  }

  /** For all 32-bit speeds, in whatever pieces the bytes arrive, an idle shell
      completes exactly one message, and its arguments are the command name and
      two numbers that stand for the speeds; the boards parse what 16 bits leave
      of them. */
  lemma MotorCommandArrives(a: int, b: int, chunks: seq<string>, done: seq<string>)
    requires -0x8000_0000 <= a < 0x8000_0000 && -0x8000_0000 <= b < 0x8000_0000
    requires Joined(chunks) == SetMotorValues(a, b)
    ensures FeedChunks(Framing("", done), chunks) == Framing("", done + [MotorMessage(a, b)])
    ensures var args := Arguments(MotorMessage(a, b));
      |args| == 3 && args[0] == "m" && AtoI(args[1]) == a && AtoI(args[2]) == b
      && AtoI16(args[1]) == Int16(a) && AtoI16(args[2]) == Int16(b)
  {
    TwoNumbersShape('m', a, b);
    TwoNumbersArguments('m', a, b);
    ChunksFeed(Framing("", done), chunks);
    PlainTextArrives(MotorMessage(a, b), done);
    hide Arguments, AtoI, AtoI16, Int16, TwoNumbers, PutAll, Joined, FeedChunks;
  }

  lemma TwoNumbersArguments(name: char, a: int, b: int)
    requires name in {'m', 'o'}
    requires -0x8000_0000 <= a < 0x8000_0000 && -0x8000_0000 <= b < 0x8000_0000
    ensures var args := Arguments(TwoNumbers(name, a, b));
      && |args| == 3 && args[0] == [name] && AtoI(args[1]) == a && AtoI(args[2]) == b
      && AtoI16(args[1]) == Int16(a) && AtoI16(args[2]) == Int16(b)
  {
    TwoNumbersShape(name, a, b);
    CStringOfText(TwoNumbers(name, a, b));
    TwoNumbersTokens(name, a, b);
    AtoI16Printed(a);
    AtoI16Printed(b);
    hide ToString, Tokens, CString, AtoI, AtoI16, Int16, TwoNumbers;
    AtoIUndoesToString(a, "");
    AtoIUndoesToString(b, "");
    assert ToString(a) + "" == ToString(a) && ToString(b) + "" == ToString(b);
  }

  /** The encoder counts the firmware prints are the ones the host reads, for
      all integers. */
  lemma EncoderReplyArrives(left: int, right: int)
    ensures EncoderValues(EncoderReply(left, right)) == (left, right)
  {
    var x, y := ToString(left), ToString(right);
    var r := EncoderReply(left, right);
    ToStringShape(left); ToStringShape(right);
    hide ToString, AtoI;
    assert r == x + [' '] + (y + [CR, LF]);
    FindFirst(x, ' ', y + [CR, LF]);
    assert r[..|x|] == x + "";
    assert r[|x| + 1..] == y + [CR, LF];
    AtoIUndoesToString(left, "");
    AtoIUndoesToString(right, [CR, LF]);
  }

  // ----- any list of messages, in any pieces ---------------------------------------------

  function Joined(chunks: seq<string>): string {
    if chunks == [] then "" else Joined(chunks[..|chunks| - 1]) + chunks[|chunks| - 1]
  }

  /** One `process_input` call for each chunk. */
  function FeedChunks(f: Framing, chunks: seq<string>): Framing {
    if chunks == [] then f else PutAll(FeedChunks(f, chunks[..|chunks| - 1]), chunks[|chunks| - 1])
  }

  lemma {:induction false} ChunksFeed(f: Framing, chunks: seq<string>)
    ensures FeedChunks(f, chunks) == PutAll(f, Joined(chunks))
  {
    if chunks != [] {
      ChunksFeed(f, chunks[..|chunks| - 1]);
      PutAllSplits(f, Joined(chunks[..|chunks| - 1]), chunks[|chunks| - 1]);
    }
  }

  /** The messages, each ended by a carriage return. */
  function Lines(messages: seq<string>): string {
    if messages == [] then "" else Lines(messages[..|messages| - 1]) + (messages[|messages| - 1] + [CR])
  }

  predicate Plain(m: string) { |m| < PROMPT_LENGTH_MAX && CR !in m && LF !in m && NUL !in m }

  /** Messages of at most 63 plain characters are completed one by one, in
      order, however the bytes are cut into calls, and each is dispatched with
      its first fifteen words. */
  lemma {:induction false} MessagesArrive(messages: seq<string>, chunks: seq<string>)
    requires forall m :: m in messages ==> Plain(m)
    requires Joined(chunks) == Lines(messages)
    ensures FeedChunks(Framing("", []), chunks) == Framing("", messages)
    ensures forall m :: m in messages ==>
      Arguments(m) == if |Tokens(m)| < COMMAND_ARG_MAX then Tokens(m) else Tokens(m)[..COMMAND_ARG_MAX - 1]
  {
    ChunksFeed(Framing("", []), chunks);
    LinesArrive(messages);
    forall m | m in messages ensures CString(m + [NUL]) == m { CStringOfText(m); }
  }

  lemma {:induction false} LinesArrive(messages: seq<string>)
    requires forall m :: m in messages ==> Plain(m)
    ensures PutAll(Framing("", []), Lines(messages)) == Framing("", messages)
  {
    if messages != [] {
      var n := |messages| - 1;
      assert messages[n] in messages;
      LinesArrive(messages[..n]);
      PutAllSplits(Framing("", []), Lines(messages[..n]), messages[n] + [CR]);
      PlainTextArrives(messages[n], messages[..n]);
      assert messages == messages[..n] + [messages[n]];
    }
  }

  // ----- from the bytes to the callbacks ----------------------------------------------------

  /** One `process_input` call for each chunk, on one shell. */
  method ProcessChunks(shell: Shell, chunks: seq<string>)
    requires shell.Valid()
    modifies shell`messageIndex, shell`log, shell.messageBuffer
    ensures shell.Valid()
    ensures var f := PutAll(Framing(old(shell.Text()), []), Joined(chunks));
      && shell.Text() == f.text
      && shell.log == old(shell.log) + DispatchAll(shell.commands, shell.hasDefault, f.done)
  {
    hide DispatchAll, PutAll;
    ghost var start := Framing(shell.Text(), []);
    NothingFed(start, shell.commands, shell.hasDefault);
    for i := 0 to |chunks|
      invariant shell.Valid()
      invariant var f := PutAll(start, Joined(chunks[..i]));
        && shell.Text() == f.text
        && shell.log == old(shell.log) + DispatchAll(shell.commands, shell.hasDefault, f.done)
    {
      ghost var f := PutAll(start, Joined(chunks[..i]));
      assert chunks[..i + 1][..i] == chunks[..i];
      PutAllSplits(start, Joined(chunks[..i]), chunks[i]);
      PutAllAppends(f.text, f.done, chunks[i]);
      DispatchAllConcat(shell.commands, shell.hasDefault, f.done, PutAll(Framing(f.text, []), chunks[i]).done);
      shell.ProcessInput(chunks[i]);
    }
    assert chunks[..|chunks|] == chunks;
  }

  lemma NothingFed(f: Framing, commands: seq<Command>, hasDefault: bool)
    ensures PutAll(f, Joined([])) == f && DispatchAll(commands, hasDefault, []) == []
  {
  }

  /** Every plain message is dispatched once and in order, however the bytes are
      cut into `process_input` calls. */
  method DispatchMessages(shell: Shell, chunks: seq<string>, ghost messages: seq<string>)
    requires shell.Valid() && shell.Text() == ""
    requires forall m :: m in messages ==> Plain(m)
    requires Joined(chunks) == Lines(messages)
    modifies shell`messageIndex, shell`log, shell.messageBuffer
    ensures shell.Valid() && shell.Text() == ""
    ensures shell.log == old(shell.log) + DispatchAll(shell.commands, shell.hasDefault, messages)
  {
    hide DispatchAll, PutAll;
    LinesArrive(messages);
    ProcessChunks(shell, chunks);
  }
}
