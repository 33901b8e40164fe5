/** The firmware's command shell: framing a byte stream into messages, cutting
    messages into tokens, calling the command (`andino::Shell`). */
module CommandShell {

  const NUL := '\0'
  const CR := '\r'
  const LF := '\n'
  const PROMPT_LENGTH_MAX := 64
  const COMMAND_ARG_MAX := 16
  const COMMANDS_MAX := 16
  const COMMAND_NAME_LENGTH_MAX := 8

  // ----- tokens ------------------------------------------------------------

  /** The characters up to the first space. */
  function Word(s: string): string {
    if s == "" || s[0] == ' ' then "" else [s[0]] + Word(s[1..])
  }

  lemma {:induction false} WordIsPrefix(s: string)
    ensures Word(s) <= s
  {
    if s != "" && s[0] != ' ' {
      WordIsPrefix(s[1..]);
      assert s == [s[0]] + s[1..];
    }
  }

  /** The space-separated words of a message. */
  function Tokens(s: string): seq<string>
    decreases |s|
  {
    if s == "" then []
    else if s[0] == ' ' then Tokens(s[1..])
    else
      WordIsPrefix(s);
      [Word(s)] + Tokens(s[|Word(s)|..])
  }

  lemma NoTokens()
    ensures Tokens("") == []
  {
  }

  lemma SpaceFirst(s: string)
    requires s != "" && s[0] == ' '
    ensures Tokens(s) == Tokens(s[1..])
  {
  }

  lemma {:induction false} WordJoins(w: string, rest: string)
    requires ' ' !in w && (rest == "" || rest[0] == ' ')
    ensures Word(w + rest) == w
  {
    if w == "" {
      assert w + rest == rest;
    } else {
      assert (w + rest)[1..] == w[1..] + rest;
      WordJoins(w[1..], rest);
    }
  }

  /** A word followed by nothing or by a space is the first token. */
  lemma FirstToken(w: string, rest: string)
    requires w != "" && ' ' !in w && (rest == "" || rest[0] == ' ')
    ensures Tokens(w + rest) == [w] + Tokens(rest)
  {
    WordJoins(w, rest);
    assert (w + rest)[|w|..] == rest;
    assert (w + rest)[0] == w[0];
  }

  /** The C string that starts a buffer: up to the first NUL. */
  function CString(s: seq<char>): string {
    if s == [] || s[0] == NUL then "" else [s[0]] + CString(s[1..])
  }

  lemma {:induction false} CStringIs(s: seq<char>, k: nat)
    requires k < |s| && s[k] == NUL && NUL !in s[..k]
    ensures CString(s) == s[..k]
  {
    if k > 0 {
      assert s[0] == s[..k][0];
      assert s[1..][..k - 1] == s[..k][1..];
      CStringIs(s[1..], k - 1);
      assert s[..k] == [s[0]] + s[1..][..k - 1];
    }
  }

  // ----- strtok --------------------------------------------------------------

  /** `s[i..e]` is the word `w`, with its NUL written behind it. */
  predicate WordAt(s: seq<char>, i: int, e: int, w: string) {
    0 <= i <= e < |s| && s[i..e] == w && s[e] == NUL && NUL !in w
  }

  /** From `from` the text runs on to the NUL at `end`. */
  predicate TextAt(s: seq<char>, from: int, end: int) {
    0 <= from <= end < |s| && s[end] == NUL && NUL !in s[from..end]
  }

  /** One `strtok`: no token is left and nothing changes, or the next token has
      been cut off behind its first character and the rest of the text follows
      `next`; nothing outside the text changes. */
  ghost predicate TokenCut(was: seq<char>, now: seq<char>, from: int, end: int, token: int, next: int, wordEnd: int)
    requires TextAt(was, from, end)
  {
    var tokens := Tokens(was[from..end]);
    && |now| == |was|
    && (token == -1 ==> tokens == [] && now == was && next == end)
    && (token != -1 ==>
          && tokens != [] && WordAt(now, token, wordEnd, tokens[0])
          && from <= token && wordEnd <= next && TextAt(now, next, end)
          && Tokens(now[next..end]) == tokens[1..]
          && forall i :: 0 <= i < |was| && (i < from || i >= end) ==> now[i] == was[i])
  }

  /** `strtok(NULL, " ")` continuing at `from`: the start of the next token, or
      -1, and where to continue. */
  method StrTok(buffer: array<char>, from: int, ghost end: int) returns (token: int, next: int, ghost wordEnd: int)
    requires TextAt(buffer[..], from, end)
    modifies buffer
    ensures TokenCut(old(buffer[..]), buffer[..], from, end, token, next, wordEnd)
  {
    hide Tokens;
    ghost var s := buffer[..];
    TextHasNoNul(s, from, end);
    NoTokens();
    var i := from;
    while buffer[i] == ' '
      invariant from <= i <= end && buffer[..] == s
      invariant Tokens(s[i..end]) == Tokens(s[from..end])
      decreases end - i
    {
      SpaceFirst(s[i..end]);
      assert s[i..end][1..] == s[i + 1..end];
      i := i + 1;
    }
    if buffer[i] == NUL {
      assert s[i..end] == "";
      return -1, i, i;
    }
    token := i;
    while buffer[i] != ' ' && buffer[i] != NUL
      invariant token <= i <= end && buffer[..] == s
      invariant ' ' !in s[token..i] && (i == token ==> s[i] != ' ' && s[i] != NUL)
      decreases end - i
    {
      assert s[token..i + 1] == s[token..i] + [s[i]];
      i := i + 1;
    }
    wordEnd := i;
    var w := s[token..i];
    assert s[token..end] == w + s[i..end];
    FirstToken(w, s[i..end]);
    if buffer[i] == NUL {
      next := i;
      assert s[next..end] == "";
    } else {
      buffer[i] := NUL;
      next := i + 1;
      SpaceFirst(s[i..end]);
      assert s[i..end][1..] == s[next..end];
      assert buffer[next..end] == s[next..end];
    }
    assert buffer[..][token..wordEnd] == w;
  }

  lemma TextHasNoNul(s: seq<char>, from: int, end: int)
    requires TextAt(s, from, end)
    ensures forall k :: from <= k < end ==> s[k] != NUL
  {
    forall k | from <= k < end ensures s[k] != NUL {
      assert s[from..end][k - from] == s[k];
    }
  }

  // ----- framing -----------------------------------------------------------------

  /** The message under construction, and the messages completed. */
  datatype Framing = Framing(text: string, done: seq<string>)

  /** One byte of input. */
  function Put(f: Framing, c: char): Framing {
    if c == CR then Framing("", f.done + [f.text])
    else if c == LF then f
    else if |f.text| + 1 >= PROMPT_LENGTH_MAX then f.(text := "")
    else f.(text := f.text + [c])
  }

  function PutAll(f: Framing, input: string): Framing {
    if input == "" then f else Put(PutAll(f, input[..|input| - 1]), input[|input| - 1])
  }

  /** How the bytes are split across calls does not matter. */
  lemma {:induction false} PutAllSplits(f: Framing, a: string, b: string)
    ensures PutAll(f, a + b) == PutAll(PutAll(f, a), b)
  {
    if b == "" {
      assert a + b == a;
    } else {
      assert (a + b)[..|a + b| - 1] == a + b[..|b| - 1];
      PutAllSplits(f, a, b[..|b| - 1]);
    }
  }

  /** A stream without its line feeds. */
  function WithoutLF(s: string): string {
    if s == "" then ""
    else WithoutLF(s[..|s| - 1]) + (if s[|s| - 1] == LF then "" else [s[|s| - 1]])
  }

  /** What is left of a message of any length: the buffer starts over every
      64 characters, so only the last `length mod 64` survive. */
  function Kept(m: string): string { m[|m| - |m| % PROMPT_LENGTH_MAX..] }

  /** The parts of a stream before each carriage return. */
  function Messages(s: string): seq<string> {
    if s == "" then []
    else
      var rest := s[..|s| - 1];
      if s[|s| - 1] == CR then Messages(rest) + [Tail(rest)] else Messages(rest)
  }

  /** The part of a stream after the last carriage return. */
  function Tail(s: string): string {
    if s == "" || s[|s| - 1] == CR then "" else Tail(s[..|s| - 1]) + [s[|s| - 1]]
  }

  function Received(m: string): string { Kept(WithoutLF(m)) }

  function ReceivedAll(ms: seq<string>): (r: seq<string>)
    ensures |r| == |ms| && forall i :: 0 <= i < |ms| ==> r[i] == Received(ms[i])
  {
    seq(|ms|, i requires 0 <= i < |ms| => Received(ms[i]))
  }

  lemma KeptGrows(m: string, c: char)
    ensures Kept(m + [c]) == if |Kept(m)| + 1 >= PROMPT_LENGTH_MAX then "" else Kept(m) + [c]
    ensures |Kept(m)| < PROMPT_LENGTH_MAX
  {
    var n := |m|;
    assert (n + 1) % PROMPT_LENGTH_MAX ==
      if n % PROMPT_LENGTH_MAX + 1 == PROMPT_LENGTH_MAX then 0 else n % PROMPT_LENGTH_MAX + 1;
  }

  /** One more character of a message. */
  lemma ReceivedGrows(m: string, c: char)
    ensures Received("") == ""
    ensures Received(m + [c]) ==
      if c == LF then Received(m)
      else if |Received(m)| + 1 >= PROMPT_LENGTH_MAX then "" else Received(m) + [c]
  {
    assert (m + [c])[..|m|] == m;
    KeptGrows(WithoutLF(m), c);
    hide Kept;
    if c == LF { assert WithoutLF(m) + "" == WithoutLF(m); }
    EmptyKept();
  }

  lemma EmptyKept()
    ensures Kept("") == ""
  {
  }

  lemma ReceivedAllGrows(ms: seq<string>, m: string)
    ensures ReceivedAll([]) == [] && ReceivedAll(ms + [m]) == ReceivedAll(ms) + [Received(m)]
  {
    hide Received;
  }

  /** Exactly what the shell makes of any stream of bytes: each message ends at
      a carriage return, loses its line feeds, and keeps its last characters. */
  lemma {:induction false} FramingIsSplitting(s: string)
    ensures PutAll(Framing("", []), s) == Framing(Received(Tail(s)), ReceivedAll(Messages(s)))
  {
    if s != "" {
      var n := |s| - 1;
      FramingIsSplitting(s[..n]);
      ReceivedGrows(Tail(s[..n]), s[n]);
      ReceivedAllGrows(Messages(s[..n]), Tail(s[..n]));
      hide Received, ReceivedAll;
    } else {
      ReceivedGrows("", LF);
      ReceivedAllGrows([], "");
      hide Received, ReceivedAll;
    }
  }

  /** A message arrives whole exactly when it is shorter than the buffer. */
  lemma ShortMessagesArrive(m: string)
    ensures Kept(m) == m <==> |m| < PROMPT_LENGTH_MAX
  {
    if Kept(m) == m {
      assert |m| % PROMPT_LENGTH_MAX == |m|;
    }
  }

  /** Plain text then a carriage return, from an empty buffer: one message. */
  lemma {:induction false} PlainTextArrives(m: string, done: seq<string>)
    requires CR !in m && LF !in m && |m| < PROMPT_LENGTH_MAX
    ensures PutAll(Framing("", done), m) == Framing(m, done)
    ensures PutAll(Framing("", done), m + [CR]) == Framing("", done + [m])
  {
    if m != "" {
      PlainTextArrives(m[..|m| - 1], done);
    }
    assert (m + [CR])[..|m|] == m;
  }

  // ----- dispatch ------------------------------------------------------------------

  /** A registered command; the callback is known by a number. */
  datatype Command = Command(name: string, callback: int)

  /** What executing a message did: a command's callback, the default callback,
      or the comparison of a null name that a blank message leads to. */
  datatype Dispatch = Call(callback: int, args: seq<string>) | Default(args: seq<string>) | NullName

  function DispatchOf(commands: seq<Command>, hasDefault: bool, args: seq<string>): seq<Dispatch> {
    if commands == [] then (if hasDefault then [Default(args)] else [])
    else if args == [] then [NullName]
    else if args[0] == commands[0].name then [Call(commands[0].callback, args)]
    else DispatchOf(commands[1..], hasDefault, args)
  }

  /** The first command of that name runs, whatever others follow. */
  lemma {:induction false} FirstMatchRuns(commands: seq<Command>, hasDefault: bool, args: seq<string>, k: nat)
    requires args != [] && k < |commands| && commands[k].name == args[0]
    requires forall j :: 0 <= j < k ==> commands[j].name != args[0]
    ensures DispatchOf(commands, hasDefault, args) == [Call(commands[k].callback, args)]
  {
    if k > 0 {
      FirstMatchRuns(commands[1..], hasDefault, args, k - 1);
      assert commands[0].name != args[0];
    }
  }

  /** With none of that name the default callback runs, if there is one. */
  lemma {:induction false} DefaultRuns(commands: seq<Command>, hasDefault: bool, args: seq<string>)
    requires args != [] && forall j :: 0 <= j < |commands| ==> commands[j].name != args[0]
    ensures DispatchOf(commands, hasDefault, args) == if hasDefault then [Default(args)] else []
  {
    if commands != [] {
      DefaultRuns(commands[1..], hasDefault, args);
      assert commands[0].name != args[0];
    }
  }

  /** The arguments a callback receives: at most fifteen tokens. */
  function Arguments(message: string): seq<string> {
    var tokens := Tokens(CString(message + [NUL]));
    if |tokens| < COMMAND_ARG_MAX then tokens else tokens[..COMMAND_ARG_MAX - 1]
  }

  /** What a list of messages makes the shell do. */
  function DispatchAll(commands: seq<Command>, hasDefault: bool, messages: seq<string>): seq<Dispatch> {
    if messages == [] then []
    else
      DispatchAll(commands, hasDefault, messages[..|messages| - 1])
      + DispatchOf(commands, hasDefault, Arguments(messages[|messages| - 1]))
  }

  lemma {:induction false} DispatchAllConcat(commands: seq<Command>, hasDefault: bool, a: seq<string>, b: seq<string>)
    ensures DispatchAll(commands, hasDefault, a + b)
         == DispatchAll(commands, hasDefault, a) + DispatchAll(commands, hasDefault, b)
  {
    hide DispatchOf, Arguments;
    if b == [] {
      assert a + b == a;
    } else {
      assert (a + b)[..|a + b| - 1] == a + b[..|b| - 1];
      DispatchAllConcat(commands, hasDefault, a, b[..|b| - 1]);
    }
  }

  /** Messages completed earlier do not influence the framing. */
  lemma {:induction false} PutAllAppends(text: string, done: seq<string>, input: string)
    ensures var f := PutAll(Framing(text, []), input);
      PutAll(Framing(text, done), input) == Framing(f.text, done + f.done)
  {
    if input != "" {
      PutAllAppends(text, done, input[..|input| - 1]);
    }
  }

  class Shell {
    const messageBuffer: array<char>
    var messageIndex: int
    var commands: seq<Command>
    var hasDefault: bool
    /** Everything executed so far. */
    var log: seq<Dispatch>

    constructor ()
      ensures Valid() && fresh(messageBuffer) && Text() == "" && commands == [] && !hasDefault && log == []
    {
      messageBuffer := new char[PROMPT_LENGTH_MAX](_ => NUL);
      messageIndex, commands, hasDefault, log := 0, [], false, [];
    }

    /** Between two bytes the index stays inside the buffer. */
    ghost predicate Valid()
      reads this
    {
      messageBuffer.Length == PROMPT_LENGTH_MAX && 0 <= messageIndex < PROMPT_LENGTH_MAX
      && |commands| <= COMMANDS_MAX
    }

    /** The message under construction. */
    ghost function Text(): string
      reads this, messageBuffer
      requires Valid()
    {
      messageBuffer[..messageIndex]
    }

    /** `set_default_callback`. */
    method SetDefaultCallback()
      requires Valid()
      modifies this`hasDefault
      ensures Valid() && hasDefault
    {
      hasDefault := true;
    }

    /** `register_command`: ignored when the registry is full.  The name is
        copied into eight characters. */
    method RegisterCommand(name: string, callback: int)
      requires Valid() && |name| < COMMAND_NAME_LENGTH_MAX && NUL !in name
      modifies this`commands
      ensures Valid()
      ensures commands ==
        if |old(commands)| >= COMMANDS_MAX then old(commands) else old(commands) + [Command(name, callback)]
    {
      if |commands| >= COMMANDS_MAX {
        return;
      }
      commands := commands + [Command(name, callback)];
    }

    /** `process_input` on the bytes available. */
    method ProcessInput(input: string)
      requires Valid()
      modifies this`messageIndex, this`log, messageBuffer
      ensures Valid()
      ensures var f := PutAll(Framing(old(Text()), []), input);
        Text() == f.text && log == old(log) + DispatchAll(commands, hasDefault, f.done)
    {
      hide DispatchOf, Arguments, Put;
      ghost var start := Framing(Text(), []);
      for i := 0 to |input|
        invariant Valid()
        invariant var f := PutAll(start, input[..i]);
          Text() == f.text && log == old(log) + DispatchAll(commands, hasDefault, f.done)
      {
        assert input[..i + 1][..i] == input[..i];
        ghost var f := PutAll(start, input[..i]);
        ProcessByte(input[i], f.done);
      }
      assert input[..|input|] == input;
    }

    /** One byte of the stream. */
    method ProcessByte(input: char, ghost done: seq<string>)
      requires Valid()
      modifies this`messageIndex, this`log, messageBuffer
      ensures Valid() && Text() == Put(Framing(old(Text()), done), input).text
      ensures var now := Put(Framing(old(Text()), done), input).done;
        forall before :: old(log) == before + DispatchAll(commands, hasDefault, done) ==>
          log == before + DispatchAll(commands, hasDefault, now)
    {
      hide DispatchOf, Arguments;
      if input == CR {
        ghost var text := Text();
        messageBuffer[messageIndex] := NUL;
        messageIndex := messageIndex + 1;
        assert messageBuffer[..messageIndex] == text + [NUL];
        ParseMessage(text);
        messageIndex := 0;
        assert (done + [text])[..|done|] == done;
      } else if input != LF {
        messageBuffer[messageIndex] := input;
        messageIndex := messageIndex + 1;
        if messageIndex >= PROMPT_LENGTH_MAX {
          messageIndex := 0;
        }
      }
    }

    /** `parse_message`: cut the buffer into tokens in place and execute. */
    method ParseMessage(ghost text: string)
      requires messageBuffer.Length == PROMPT_LENGTH_MAX && |text| < PROMPT_LENGTH_MAX
      requires messageBuffer[..|text| + 1] == text + [NUL]
      modifies this`log, messageBuffer
      ensures log == old(log) + DispatchOf(commands, hasDefault, Arguments(text))
    {
      hide DispatchOf, Tokens, CString, Arguments, Cutting, TokenCut, TextAt;
      ghost var start := messageBuffer[..];
      ghost var end := FindEnd(start, text);
      ghost var tokens := Tokens(start[0..end]);
      ghost var args := Arguments(text);
      ArgumentsAre(text, tokens);
      var argv := new int[COMMAND_ARG_MAX](_ => -1);
      ghost var ends: seq<int> := [];
      var argc := 0;
      var token, save;
      ghost var wordEnd;
      token, save, wordEnd := StrTok(messageBuffer, 0, end);
      argv[0] := token;
      if token != -1 { ends := [wordEnd]; }
      CutFirst(start, messageBuffer[..], argv[..], tokens, save, end, token, wordEnd);
      while argv[argc] != -1 && argc < COMMAND_ARG_MAX - 1
        invariant 0 <= argc < COMMAND_ARG_MAX && log == old(log)
        invariant Cutting(messageBuffer[..], argv[..], ends, tokens, argc, save, end)
        decreases COMMAND_ARG_MAX - argc, argv[argc] != -1
      {
        ghost var was, from, starts := messageBuffer[..], save, argv[..];
        RestIsText(was, starts, ends, tokens, argc, from, end);
        token, save, wordEnd := StrTok(messageBuffer, save, end);
        argc := argc + 1;
        argv[argc] := token;
        assert argv[..] == starts[argc := token];
        CutOneMore(was, messageBuffer[..], starts, ends, tokens, argc - 1, from, save, end, token, wordEnd);
        if token != -1 { ends := ends + [wordEnd]; }
      }
      ArgumentsFound(messageBuffer[..], argv[..], ends, tokens, argc, save, end);
      ExecuteCallback(argc, argv, args);
    }

    /** `execute_callback`: the first command of that name, else the default. */
    method ExecuteCallback(argc: int, argv: array<int>, ghost args: seq<string>)
      requires argv.Length == COMMAND_ARG_MAX && 0 <= argc < COMMAND_ARG_MAX && argc == |args|
      requires messageBuffer.Length == PROMPT_LENGTH_MAX
      requires forall k :: 0 <= k < argc ==>
        0 <= argv[k] < messageBuffer.Length && CString(messageBuffer[argv[k]..]) == args[k]
      modifies this`log
      ensures log == old(log) + DispatchOf(commands, hasDefault, args)
    {
      hide CString;
      var given := ReadArguments(argc, argv, args);
      for i := 0 to |commands|
        invariant log == old(log)
        invariant DispatchOf(commands, hasDefault, args) == DispatchOf(commands[i..], hasDefault, args)
      {
        if given == [] {
          log := log + [NullName];
          return;
        }
        if given[0] == commands[i].name {
          log := log + [Call(commands[i].callback, given)];
          return;
        }
        assert commands[i..][1..] == commands[i + 1..];
      }
      if hasDefault {
        log := log + [Default(given)];
      }
    }

    /** What a callback reads through `argv`. */
    method ReadArguments(argc: int, argv: array<int>, ghost args: seq<string>) returns (given: seq<string>)
      requires argv.Length == COMMAND_ARG_MAX && 0 <= argc < COMMAND_ARG_MAX && argc == |args|
      requires forall k :: 0 <= k < argc ==>
        0 <= argv[k] < messageBuffer.Length && CString(messageBuffer[argv[k]..]) == args[k]
      ensures given == args
    {
      given := [];
      for k := 0 to argc
        invariant given == args[..k]
      {
        given := given + [CString(messageBuffer[argv[k]..])];
      }
    }
  }

  /** Where the text of the buffer ends: at the first NUL. */
  lemma FindEnd(s: seq<char>, text: string) returns (end: nat)
    requires |text| < |s| && s[..|text| + 1] == text + [NUL]
    ensures TextAt(s, 0, end) && s[0..end] == CString(text + [NUL])
  {
    end := 0;
    while s[end] != NUL
      invariant 0 <= end <= |text| && NUL !in s[..end]
      decreases |text| - end
    {
      assert s[end] == s[..|text| + 1][end];
      assert s[..end + 1] == s[..end] + [s[end]];
      end := end + 1;
    }
    assert s[0..end] == s[..end] == (text + [NUL])[..end];
    assert (text + [NUL])[end] == s[end];
    CStringIs(text + [NUL], end);
  }

  lemma ArgumentsAre(text: string, tokens: seq<string>)
    requires tokens == Tokens(CString(text + [NUL]))
    ensures Arguments(text) == if |tokens| < COMMAND_ARG_MAX then tokens else tokens[..COMMAND_ARG_MAX - 1]
  {
    hide Tokens, CString;
  }

  /** How far the message has been cut: the tokens found so far stand in the
      buffer where `argv` says, and the rest of the text follows `save`. */
  predicate Cutting(s: seq<char>, argv: seq<int>, ends: seq<int>, tokens: seq<string>, argc: int, save: int, end: int) {
    && 0 <= argc < |argv| && |ends| <= |tokens| && |ends| <= |argv|
    && |ends| == (if argv[argc] != -1 then argc + 1 else argc)
    && TextAt(s, save, end)
    && (if argv[argc] == -1 then |ends| == |tokens| else Tokens(s[save..end]) == tokens[|ends|..])
    && forall k :: 0 <= k < |ends| ==> ends[k] <= save && WordAt(s, argv[k], ends[k], tokens[k])
  }

  lemma CutFirst(was: seq<char>, now: seq<char>, argv: seq<int>, tokens: seq<string>,
                 save: int, end: int, token: int, wordEnd: int)
    requires TextAt(was, 0, end) && TokenCut(was, now, 0, end, token, save, wordEnd) && tokens == Tokens(was[0..end])
    requires |argv| > 1 && argv[0] == token
    ensures Cutting(now, argv, if token != -1 then [wordEnd] else [], tokens, 0, save, end)
  {
    hide Tokens;
  }

  lemma RestIsText(s: seq<char>, argv: seq<int>, ends: seq<int>, tokens: seq<string>, argc: int, save: int, end: int)
    requires Cutting(s, argv, ends, tokens, argc, save, end)
    ensures TextAt(s, save, end)
  {
  }

  /** Cutting off one more token leaves the words found before alone. */
  lemma CutOneMore(was: seq<char>, now: seq<char>, argv: seq<int>, ends: seq<int>, tokens: seq<string>, argc: int,
                   from: int, save: int, end: int, token: int, wordEnd: int)
    requires Cutting(was, argv, ends, tokens, argc, from, end) && argv[argc] != -1 && argc + 1 < |argv|
    requires TextAt(was, from, end) && TokenCut(was, now, from, end, token, save, wordEnd)
    ensures var ends' := if token != -1 then ends + [wordEnd] else ends;
      Cutting(now, argv[argc + 1 := token], ends', tokens, argc + 1, save, end)
  {
    hide Tokens;
    TextHasNoNul(was, from, end);
    forall k | 0 <= k < |ends| ensures ends[k] <= save && WordAt(now, argv[k], ends[k], tokens[k]) {
      assert was[argv[k]..ends[k]] == now[argv[k]..ends[k]];
    }
  }

  lemma ArgumentsFound(s: seq<char>, argv: seq<int>, ends: seq<int>, tokens: seq<string>, argc: nat,
                       save: int, end: int)
    requires Cutting(s, argv, ends, tokens, argc, save, end)
    ensures argc <= |tokens| && (argv[argc] == -1 ==> argc == |tokens|) && (argv[argc] != -1 ==> argc < |tokens|)
    ensures forall k :: 0 <= k < argc ==> 0 <= argv[k] < |s| && CString(s[argv[k]..]) == tokens[k]
  {
    forall k | 0 <= k < argc ensures 0 <= argv[k] < |s| && CString(s[argv[k]..]) == tokens[k] {
      assert WordAt(s, argv[k], ends[k], tokens[k]);
      var t := s[argv[k]..];
      var n := ends[k] - argv[k];
      assert t[..n] == tokens[k] && t[n] == NUL;
      CStringIs(t, n);
    }
  }
}
