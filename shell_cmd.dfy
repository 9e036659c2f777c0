/**
 * The shell's command processor (shell_cmd.c): split a received line in place
 * into at most MAX_ARGS space-separated arguments, look the first one up in the
 * command table, and invoke its handler.
 *
 * Buffer positions stand for the `char *` pointers: `argv[k]` is the index in
 * `buff` where the k-th argument starts, and the argument's text is the C
 * string found there once the terminators are written.
 */
module ShellCmd {
  import opened Wrappers

  const MAX_ARGS: nat := 8

  // ---------------------------------------------------------------------------
  // The command table and find_command.
  // ---------------------------------------------------------------------------

  datatype Handler = Help | ReadPage

  datatype Command = Command(name: string, handler: Handler, description: string, usage: string)

  /** shell_commands[], in table order. */
  const COMMANDS: seq<Command> := [
    Command("help", Help, "Prints all commands and their associated help text.", "help"),
    Command("read_page", ReadPage, "Reads a page from the SPI NAND memory unit.",
            "read_page <block> <page> <start byte>")
  ]

  /** The index of the first table entry from `from` on whose name is `name`. */
  function LookupFrom(name: string, from: nat): (r: Option<nat>)
    requires from <= |COMMANDS|
    ensures r.Some? ==> from <= r.value < |COMMANDS| && COMMANDS[r.value].name == name
    ensures r.Some? ==> forall j :: from <= j < r.value ==> COMMANDS[j].name != name
    ensures r.None? ==> forall j :: from <= j < |COMMANDS| ==> COMMANDS[j].name != name
    decreases |COMMANDS| - from
  {
    if from == |COMMANDS| then None
    else if COMMANDS[from].name == name then Some(from)
    else LookupFrom(name, from + 1)
  }

  /** The index of the first table entry named `name`, if any. */
  function Lookup(name: string): (r: Option<nat>)
    ensures r.Some? ==> r.value < |COMMANDS| && COMMANDS[r.value].name == name
    ensures r.Some? ==> forall j :: 0 <= j < r.value ==> COMMANDS[j].name != name
    ensures r.None? ==> forall j :: 0 <= j < |COMMANDS| ==> COMMANDS[j].name != name
  {
    LookupFrom(name, 0)
  }

  /** The table answers exactly its two names. */
  lemma LookupTable(name: string)
    ensures Lookup(name) == if name == "help" then Some(0)
                            else if name == "read_page" then Some(1)
                            else None
  {
  }

  /** find_command: scans the table in order and returns the first exact match (strcmp), or NULL. */
  method FindCommand(name: string) returns (r: Option<nat>)
    ensures r.Some? ==> r.value < |COMMANDS| && COMMANDS[r.value].name == name
    ensures r.Some? ==> forall j :: 0 <= j < r.value ==> COMMANDS[j].name != name
    ensures r.None? <==> forall j :: 0 <= j < |COMMANDS| ==> COMMANDS[j].name != name
    ensures r == Lookup(name)
  {
    var i := 0;
    while i < |COMMANDS|
      invariant 0 <= i <= |COMMANDS|
      invariant forall j :: 0 <= j < i ==> COMMANDS[j].name != name
    {
      if COMMANDS[i].name == name {
        return Some(i);
      }
      i := i + 1;
    }
    return None;
  }

  // ---------------------------------------------------------------------------
  // The tokenizer of shell_cmd_process, as a step function over the loop state.
  // ---------------------------------------------------------------------------

  /**
   * The state of the parsing loop: the buffer, the recorded argument starts
   * (`argv[..argc]`), where each recorded argument was terminated, the pending
   * `next_arg`, and the loop index `i`.
   */
  datatype Scan = Scan(buf: seq<char>, argv: seq<nat>, ends: seq<nat>, next: Option<nat>, i: nat)

  /** Position `j` ends an argument: a space, or the last position of the line. */
  predicate IsBreak(b: seq<char>, len: nat, j: nat)
    requires j < |b|
  {
    b[j] == ' ' || j == len - 1
  }

  /** One pass of the loop body at position `s.i`. */
  function Step(s: Scan, len: nat): (r: Scan)
    requires s.i < len <= |s.buf|
    ensures r.i == s.i + 1
    ensures r.buf == if IsBreak(s.buf, len, s.i) then s.buf[s.i := '\0'] else s.buf
    ensures if IsBreak(s.buf, len, s.i) && s.next.Some?
            then r.argv == s.argv + [s.next.value] && r.ends == s.ends + [s.i]
            else r.argv == s.argv && r.ends == s.ends
    ensures r.next.None? <==> IsBreak(s.buf, len, s.i)
  {
    if IsBreak(s.buf, len, s.i) then
      var buf := s.buf[s.i := '\0'];
      if s.next.Some? then Scan(buf, s.argv + [s.next.value], s.ends + [s.i], None, s.i + 1)
      else Scan(buf, s.argv, s.ends, None, s.i + 1)
    else if s.next.None? then s.(next := Some(s.i), i := s.i + 1)
    else s.(i := s.i + 1)
  }

  /** The loop from state `s` on, while `i < len && argc < MAX_ARGS`. */
  function Loop(s: Scan, len: nat): (r: Scan)
    requires s.i <= len <= |s.buf|
    ensures s.i <= r.i <= len && |r.buf| == |s.buf|
    ensures |s.argv| <= MAX_ARGS ==> (r.i == len || |r.argv| == MAX_ARGS) && |r.argv| <= MAX_ARGS
    ensures |s.argv| <= |r.argv| && r.argv[..|s.argv|] == s.argv
    decreases len - s.i
  {
    if s.i < len && |s.argv| < MAX_ARGS then Loop(Step(s, len), len) else s
  }

  // ---------------------------------------------------------------------------
  // What tokenizing achieves.
  // ---------------------------------------------------------------------------

  /** An argument may start at `p`: the line's start or just after a space. */
  predicate StartsAfterSpace(b: seq<char>, p: nat)
    requires p < |b|
  {
    p == 0 || b[p - 1] == ' '
  }

  /**
   * `b[p..e]` is an argument of the line `b[..len]`: it starts at the line's
   * start or after a space, contains no break, and is ended by the break at `e`.
   * It is never empty, and a character at `len - 1` is never part of it.
   */
  predicate IsToken(b: seq<char>, len: nat, p: nat, e: nat)
    requires len <= |b|
  {
    p < e < len && StartsAfterSpace(b, p) && IsBreak(b, len, e)
    && forall m :: p <= m < e ==> !IsBreak(b, len, m)
  }

  /** The buffer after the terminators are written at the breaks before `upTo`. */
  predicate Terminated(b0: seq<char>, len: nat, upTo: nat, b: seq<char>)
  {
    |b| == |b0| && upTo <= len <= |b0|
    && forall j :: 0 <= j < |b0| ==> b[j] == if j < upTo && IsBreak(b0, len, j) then '\0' else b0[j]
  }

  /** The recorded arguments are arguments of the line, in order, ended before `i`. */
  predicate Recorded(b0: seq<char>, len: nat, argv: seq<nat>, ends: seq<nat>, i: nat)
    requires len <= |b0|
  {
    && |argv| == |ends| <= MAX_ARGS
    && (forall k :: 0 <= k < |argv| ==> ends[k] < i && IsToken(b0, len, argv[k], ends[k]))
    && (forall k :: 0 <= k < |argv| - 1 ==> ends[k] < argv[k + 1])
  }

  /** Every argument of the line ended before `i` is recorded. */
  ghost predicate Complete(b0: seq<char>, len: nat, argv: seq<nat>, i: nat)
    requires len <= |b0|
  {
    forall p: nat, e: nat :: e < i && IsToken(b0, len, p, e) ==> p in argv
  }

  /** The pending `next_arg`: an argument start with no break from it up to `i`. */
  predicate Pending(b0: seq<char>, len: nat, p: nat, i: nat)
    requires len <= |b0|
  {
    p < i <= len && StartsAfterSpace(b0, p) && forall m :: p <= m < i ==> !IsBreak(b0, len, m)
  }

  /** What holds of every state the loop reaches from the line `b0`. */
  ghost predicate Inv(b0: seq<char>, len: nat, s: Scan)
  {
    && Terminated(b0, len, s.i, s.buf)
    && Recorded(b0, len, s.argv, s.ends, s.i)
    && Complete(b0, len, s.argv, s.i)
    && (s.next.Some? ==>
          Pending(b0, len, s.next.value, s.i)
          && (|s.argv| > 0 ==> s.ends[|s.argv| - 1] < s.next.value))
    && (s.next.None? && 0 < s.i ==> IsBreak(b0, len, s.i - 1))
    && (|s.argv| == MAX_ARGS ==> s.ends[MAX_ARGS - 1] == s.i - 1)
  }

  /** One pass writes NUL at `s.i` exactly when it is a break of the line. */
  lemma StepTerminated(b0: seq<char>, len: nat, s: Scan)
    requires s.i < len && Terminated(b0, len, s.i, s.buf)
    ensures Terminated(b0, len, s.i + 1, Step(s, len).buf)
  {
  }

  /** A recorded argument stays an argument of the line, and the order is kept. */
  lemma StepRecorded(b0: seq<char>, len: nat, s: Scan)
    requires s.i < len && Terminated(b0, len, s.i, s.buf) && |s.argv| < MAX_ARGS
    requires Recorded(b0, len, s.argv, s.ends, s.i)
    requires s.next.Some? ==> Pending(b0, len, s.next.value, s.i)
                              && (|s.argv| > 0 ==> s.ends[|s.argv| - 1] < s.next.value)
    ensures var r := Step(s, len); Recorded(b0, len, r.argv, r.ends, r.i)
  {
  }

  /** An argument ending at `s.i` is recorded by the pass at `s.i`. */
  lemma StepComplete(b0: seq<char>, len: nat, s: Scan)
    requires s.i < len && Terminated(b0, len, s.i, s.buf)
    requires Complete(b0, len, s.argv, s.i)
    requires s.next.Some? ==> Pending(b0, len, s.next.value, s.i)
    requires s.next.None? && 0 < s.i ==> IsBreak(b0, len, s.i - 1)
    ensures Complete(b0, len, Step(s, len).argv, s.i + 1)
  {
  }

  /** `next_arg` stays a pending start, and is cleared only at a break. */
  lemma StepPending(b0: seq<char>, len: nat, s: Scan)
    requires s.i < len && Terminated(b0, len, s.i, s.buf)
    requires Recorded(b0, len, s.argv, s.ends, s.i)
    requires s.next.Some? ==> Pending(b0, len, s.next.value, s.i)
                              && (|s.argv| > 0 ==> s.ends[|s.argv| - 1] < s.next.value)
    requires s.next.None? && 0 < s.i ==> IsBreak(b0, len, s.i - 1)
    ensures var r := Step(s, len);
      && (r.next.Some? ==>
            Pending(b0, len, r.next.value, r.i)
            && (|r.argv| > 0 ==> r.ends[|r.argv| - 1] < r.next.value))
      && (r.next.None? ==> IsBreak(b0, len, s.i))
  {
  }

  /** One pass of the loop body keeps the invariant. */
  lemma StepKeepsInv(b0: seq<char>, len: nat, s: Scan)
    requires Inv(b0, len, s) && s.i < len && |s.argv| < MAX_ARGS
    ensures Inv(b0, len, Step(s, len))
  {
    StepTerminated(b0, len, s);
    StepRecorded(b0, len, s);
    StepComplete(b0, len, s);
    StepPending(b0, len, s);
  }

  lemma {:induction false} LoopKeepsInv(b0: seq<char>, len: nat, s: Scan)
    requires Inv(b0, len, s)
    ensures Inv(b0, len, Loop(s, len))
    ensures var t := Loop(s, len); t.i == len || |t.argv| == MAX_ARGS
    decreases len - s.i
  {
    if s.i < len && |s.argv| < MAX_ARGS {
      StepKeepsInv(b0, len, s);
      LoopKeepsInv(b0, len, Step(s, len));
    }
  }

  /**
   * The loop state when shell_cmd_process(buff, len) leaves its parsing loop:
   *  - at most MAX_ARGS arguments, and scanning stops right after the
   *    terminator of the MAX_ARGS-th;
   *  - the recorded arguments are exactly the arguments of the scanned part
   *    of the line, left to right: each starts at a non-break after the line
   *    start or a space, is non-empty, and ends at a space or at `len - 1`;
   *  - the only bytes changed are the scanned breaks, each now '\0'.
   */
  function Tokenize(buff: seq<char>, len: nat): (t: Scan)
    requires len <= |buff|
    ensures |t.argv| == |t.ends| <= MAX_ARGS
    ensures t.i == len || |t.argv| == MAX_ARGS
    ensures |t.argv| == MAX_ARGS ==> t.i == t.ends[MAX_ARGS - 1] + 1
    ensures Terminated(buff, len, t.i, t.buf)
    ensures forall k :: 0 <= k < |t.argv| ==> t.ends[k] < t.i && IsToken(buff, len, t.argv[k], t.ends[k])
    ensures forall k :: 0 <= k < |t.argv| - 1 ==> t.ends[k] < t.argv[k + 1]
    ensures forall p: nat, e: nat :: e < t.i && IsToken(buff, len, p, e) ==> p in t.argv
  {
    var s0 := Scan(buff, [], [], None, 0);
    assert Inv(buff, len, s0);
    LoopKeepsInv(buff, len, s0);
    Loop(s0, len)
  }

  /** A start is never at `len - 1`: a one-character argument there is dropped. */
  lemma LastPositionNeverStarts(b0: seq<char>, len: nat, k: nat)
    requires len <= |b0| && k < |Tokenize(b0, len).argv|
    ensures Tokenize(b0, len).argv[k] < len - 1
    ensures b0[Tokenize(b0, len).argv[k]] != ' '
  {
  }

  // ---------------------------------------------------------------------------
  // C strings, dispatch, and the read_page argument check.
  // ---------------------------------------------------------------------------

  /** The C string starting at `p`: up to the first '\0' (or the buffer's end). */
  function CString(b: seq<char>, p: nat): (s: string)
    requires p <= |b|
    ensures |s| <= |b| - p
    ensures forall m :: 0 <= m < |s| ==> s[m] == b[p + m] && s[m] != '\0'
    decreases |b| - p
  {
    if p == |b| || b[p] == '\0' then [] else [b[p]] + CString(b, p + 1)
  }

  lemma {:induction false} CStringUpTo(b: seq<char>, p: nat, e: nat)
    requires p <= e < |b| && b[e] == '\0'
    requires forall m :: p <= m < e ==> b[m] != '\0'
    ensures CString(b, p) == b[p..e]
    decreases e - p
  {
    if p < e {
      CStringUpTo(b, p + 1, e);
    }
  }

  /**
   * On a line with no NUL characters, the text of each recorded argument after
   * tokenizing is the original characters from its start up to its break.
   */
  lemma ArgumentText(b0: seq<char>, len: nat, k: nat)
    requires len <= |b0| && forall j :: 0 <= j < len ==> b0[j] != '\0'
    requires k < |Tokenize(b0, len).argv|
    ensures var t := Tokenize(b0, len);
      CString(t.buf, t.argv[k]) == b0[t.argv[k]..t.ends[k]]
  {
    var t := Tokenize(b0, len);
    CStringUpTo(t.buf, t.argv[k], t.ends[k]);
    assert t.buf[t.argv[k]..t.ends[k]] == b0[t.argv[k]..t.ends[k]];
  }

  /** What shell_cmd_process does once the line is parsed. */
  datatype Action =
    | NoCommand                                             // argc == 0
    | UnknownCommand(name: string)                          // "Unknown command '%s'."
    | Invoke(handler: Handler, argc: nat, args: seq<string>) // command->handler(argc, argv)

  /** The C strings of the recorded arguments. */
  function Args(b: seq<char>, argv: seq<nat>): (args: seq<string>)
    requires forall k :: 0 <= k < |argv| ==> argv[k] <= |b|
    ensures |args| == |argv|
    ensures forall k :: 0 <= k < |argv| ==> args[k] == CString(b, argv[k])
  {
    seq(|argv|, k requires 0 <= k < |argv| => CString(b, argv[k]))
  }

  /**
   * The dispatch decision: nothing without arguments; otherwise the handler of
   * the table entry named by the first argument, or the unknown-command report.
   */
  function Dispatch(b: seq<char>, argv: seq<nat>): (a: Action)
    requires forall k :: 0 <= k < |argv| ==> argv[k] <= |b|
    ensures |argv| == 0 <==> a == NoCommand
    ensures a.Invoke? <==> |argv| > 0 && Lookup(CString(b, argv[0])).Some?
    ensures a.Invoke? ==> a.argc == |argv| && a.args == Args(b, argv)
                          && COMMANDS[Lookup(a.args[0]).value].handler == a.handler
    ensures a.UnknownCommand? ==> a.name == CString(b, argv[0])
  {
    if |argv| == 0 then NoCommand
    else
      var name := CString(b, argv[0]);
      match Lookup(name)
      case None => UnknownCommand(name)
      case Some(i) => Invoke(COMMANDS[i].handler, |argv|, Args(b, argv))
  }

  /** What command_read_page does with its arguments. */
  datatype ReadPageAction =
    | UsageError                                           // wrong number of arguments
    | ReadRequest(block: string, page: string, startByte: string)  // parsed by sscanf, then read

  /** command_read_page: anything but exactly four arguments is only reported. */
  function ReadPageHandler(argc: nat, args: seq<string>): (r: ReadPageAction)
    requires argc == |args|
    ensures r.ReadRequest? <==> argc == 4
    ensures r.ReadRequest? ==> r.block == args[1] && r.page == args[2] && r.startByte == args[3]
  {
    if argc != 4 then UsageError else ReadRequest(args[1], args[2], args[3])
  }

  /**
   * shell_cmd_process(buff, len): tokenizes `buff` in place, then dispatches.
   * The result says which handler was invoked (and on what) or what was
   * reported instead; printing is not modelled.
   */
  method Process(buff: array<char>, len: nat) returns (argc: nat, argv: seq<nat>, action: Action)
    requires len <= buff.Length
    modifies buff
    ensures var t := Tokenize(old(buff[..]), len);
      buff[..] == t.buf && argv == t.argv && argc == |argv|
    ensures argc <= MAX_ARGS && forall k :: 0 <= k < argc ==> argv[k] < len - 1
    ensures action == Dispatch(buff[..], argv)
  {
    ghost var b0 := buff[..];
    ghost var s0 := Scan(b0, [], [], None, 0);
    var av := new nat[MAX_ARGS](_ => 0);
    argc := 0;
    var next: Option<nat> := None;
    ghost var ends: seq<nat> := [];
    var i := 0;
    while i < len && argc < MAX_ARGS
      invariant i <= len && argc <= MAX_ARGS
      invariant buff.Length == |b0| && Loop(s0, len) == Loop(Scan(buff[..], av[..argc], ends, next, i), len)
    {
      ghost var s := Scan(buff[..], av[..argc], ends, next, i);
      if buff[i] == ' ' || i == len - 1 {
        buff[i] := '\0';
        assert buff[..] == s.buf[i := '\0'];
        if next.Some? {
          av[argc] := next.value;
          assert av[..argc + 1] == s.argv + [next.value];
          ends := ends + [i];
          argc := argc + 1;
          next := None;
        }
      } else if next.None? {
        next := Some(i);
      }
      i := i + 1;
      assert Scan(buff[..], av[..argc], ends, next, i) == Step(s, len);
    }
    argv := av[..argc];
    assert Tokenize(b0, len) == Loop(s0, len);
    forall k | 0 <= k < argc
      ensures argv[k] < len - 1
    {
      LastPositionNeverStarts(b0, len, k);
    }

    if argc > 0 {
      var name := CString(buff[..], argv[0]);
      var command := FindCommand(name);
      if command.Some? {
        action := Invoke(COMMANDS[command.value].handler, argc, Args(buff[..], argv));
      } else {
        action := UnknownCommand(name);
      }
    } else {
      action := NoCommand;
    }
  }
}
