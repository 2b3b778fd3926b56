/*
 * showfound's keyboard commands: the buffer that collects a numeric prefix,
 * a command key and a mouse click; the commands with their argument rules;
 * and the keymap that finds the command for the buffered key.
 */
module ViewCommand {
  import opened Wrappers
  import opened Text

  // ---------------------------------------------------------------------
  // Keys

  const LeftArrowKey: int := 2
  const RightArrowKey: int := 3
  const EscapeKey: int := 27

  /** C isprint in the "C" locale. */
  predicate IsPrint(key: int) { 0x20 <= key <= 0x7e }

  /** A printable key as its character, the arrows and escape by name, anything else in decimal. */
  function KeyToString(key: int): (s: string)
    ensures |s| > 0
  {
    if IsPrint(key) then [key as char]
    else if key == LeftArrowKey then "<-"
    else if key == RightArrowKey then "->"
    else if key == EscapeKey then "ESC"
    else IntToString(key)
  }

  /** Printable keys are shown as one character each, and different keys differently. */
  lemma PrintableKeys(a: int, b: int)
    requires IsPrint(a) && IsPrint(b)
    ensures |KeyToString(a)| == 1 && KeyToString(a)[0] as int == a
    ensures KeyToString(a) == KeyToString(b) <==> a == b
  {
    if KeyToString(a) == KeyToString(b) {
      assert KeyToString(a)[0] == KeyToString(b)[0];
    }
  }

  /** The named keys get names no printable key can have. */
  lemma NamedKeys(key: int)
    requires IsPrint(key)
    ensures KeyToString(LeftArrowKey) == "<-" && KeyToString(RightArrowKey) == "->"
    ensures KeyToString(EscapeKey) == "ESC"
    ensures KeyToString(key) != KeyToString(LeftArrowKey) && KeyToString(key) != KeyToString(RightArrowKey)
    ensures KeyToString(key) != KeyToString(EscapeKey)
  {
  }

  // ---------------------------------------------------------------------
  // The command buffer, as a value

  datatype BufferError = NoError | UnknownCommand | UsageError

  /** What a CommandBuffer holds. */
  datatype BufferState = BufferState(prefix: Option<int>, key: Option<int>, clicked: bool, error: BufferError)

  /** The state after construction, Reset or ResetAll. */
  const Empty: BufferState := BufferState(None, None, false, NoError)

  predicate IsDigitKey(key: int) { '0' as int <= key <= '9' as int }

  /**
   * AddKey: a digit extends the prefix and a non-digit becomes the key; once
   * a key is set, whatever comes next starts a new command.
   */
  function AddKeyTo(b: BufferState, key: int): BufferState
  {
    var b := if b.key.Some? then Empty else b.(error := NoError);
    if IsDigitKey(key) then
      b.(prefix := Some((if b.prefix.Some? then b.prefix.value else 0) * 10 + (key - '0' as int)))
    else
      b.(key := Some(key))
  }

  /** AddClick: a second click starts a new command. */
  function AddClickTo(b: BufferState): BufferState
  {
    var b := if b.clicked then Empty else b.(error := NoError);
    b.(clicked := true)
  }

  /** SetError: everything is dropped and only the error is kept. */
  function WithError(e: BufferError): BufferState
  {
    Empty.(error := e)
  }

  /** ToString: the error if there is one, else the prefix and the key, a blank between them. */
  function Show(b: BufferState): string
  {
    match b.error
    case UnknownCommand => "Err: UNKNOWN CMD"
    case UsageError => "Err: USAGE"
    case NoError =>
      var p := if b.prefix.Some? then IntToString(b.prefix.value) else "";
      if b.key.None? then p
      else if p == "" then KeyToString(b.key.value)
      else p + " " + KeyToString(b.key.value)
  }

  /** The buffer after a run of keys. */
  function Typed(b: BufferState, keys: seq<int>): BufferState
  {
    if |keys| == 0 then b else AddKeyTo(Typed(b, keys[..|keys| - 1]), keys[|keys| - 1])
  }

  /** The key codes of a text's characters. */
  function Keys(s: string): (keys: seq<int>)
    ensures |keys| == |s|
  {
    seq(|s|, i requires 0 <= i < |s| => s[i] as int)
  }

  /**
   * Typing digits into an empty buffer leaves their decimal value as the
   * prefix and nothing else, for any value the `int` prefix can hold (past
   * 2^31 - 1 the source's multiplication overflows).
   */
  lemma {:induction false} TypeDigits(s: string)
    requires |s| > 0 && AllDigits(s) && DigitsValue(s) <= Int32Max
    ensures Typed(Empty, Keys(s)) == Empty.(prefix := Some(DigitsValue(s)))
  {
    var init := s[..|s| - 1];
    assert Keys(s)[..|s| - 1] == Keys(init);
    assert DigitValue(s[|s| - 1]) == s[|s| - 1] as int - '0' as int;
    if |init| > 0 {
      TypeDigits(init);
    }
  }

  /**
   * Typing a number the `int` prefix can hold and then a command key shows
   * both, a blank between: the prefix is read back exactly as typed.
   */
  lemma ShowTyped(n: nat, key: int)
    requires n <= Int32Max && !IsDigitKey(key)
    ensures Show(AddKeyTo(Typed(Empty, Keys(NatToString(n))), key)) == NatToString(n) + " " + KeyToString(key)
  {
    NatToStringValue(n);
    TypeDigits(NatToString(n));
  }

  /** After an error, the next key or click clears it, and nothing typed before it survives. */
  lemma ErrorClears(e: BufferError, key: int)
    ensures AddKeyTo(WithError(e), key).error == NoError && AddClickTo(WithError(e)).error == NoError
    ensures AddClickTo(WithError(e)) == Empty.(clicked := true)
    ensures e == UnknownCommand ==> Show(WithError(e)) == "Err: UNKNOWN CMD"
    ensures e == UsageError ==> Show(WithError(e)) == "Err: USAGE"
  {
  }

  /** Once a key is set, the next key or the next digit starts over. */
  lemma KeyRestarts(b: BufferState, key: int)
    requires b.key.Some?
    ensures IsDigitKey(key) ==> AddKeyTo(b, key) == Empty.(prefix := Some(key - '0' as int))
    ensures !IsDigitKey(key) ==> AddKeyTo(b, key) == Empty.(key := Some(key))
  {
  }

  /** Before a key, a command key keeps the prefix and the click. */
  lemma KeyKeepsPrefix(b: BufferState, key: int)
    requires b.key.None? && !IsDigitKey(key)
    ensures AddKeyTo(b, key) == b.(key := Some(key), error := NoError)
  {
  }

  /** A second click drops the prefix and the key. */
  lemma SecondClick(b: BufferState)
    requires b.clicked
    ensures AddClickTo(b) == Empty.(clicked := true)
  {
  }

  lemma TypedSnoc(b: BufferState, keys: seq<int>, key: int)
    ensures Typed(b, keys + [key]) == AddKeyTo(Typed(b, keys), key)
  {
    assert (keys + [key])[..|keys|] == keys;
  }

  /** "1", "3", "x", click: prefix 13, key 'x', clicked; before the click it shows as "13 x". */
  lemma FullSequence()
    ensures AddClickTo(Typed(Empty, ['1' as int, '3' as int, 'x' as int]))
            == BufferState(Some(13), Some('x' as int), true, NoError)
    ensures Show(Typed(Empty, ['1' as int, '3' as int, 'x' as int])) == "13 x"
  {
    TypedSnoc(Empty, [], '1' as int);
    assert [] + ['1' as int] == ['1' as int];
    TypedSnoc(Empty, ['1' as int], '3' as int);
    assert ['1' as int] + ['3' as int] == ['1' as int, '3' as int];
    TypedSnoc(Empty, ['1' as int, '3' as int], 'x' as int);
    assert ['1' as int, '3' as int] + ['x' as int] == ['1' as int, '3' as int, 'x' as int];
    assert Typed(Empty, ['1' as int, '3' as int, 'x' as int]) == BufferState(Some(13), Some('x' as int), false, NoError);
    assert IntToString(13) == "13";
  }

  /** The buffer itself: its four fields change in place. */
  class CommandBuffer {
    var prefix: Option<int>
    var key: Option<int>
    var clicked: bool
    var error: BufferError

    function State(): BufferState
      reads this
    {
      BufferState(prefix, key, clicked, error)
    }

    constructor ()
      ensures State() == Empty
    {
      prefix := None;
      key := None;
      clicked := false;
      error := NoError;
    }

    method Reset()
      modifies this
      ensures State() == Empty
    {
      ResetAll();
    }

    method ResetAll()
      modifies this
      ensures State() == Empty
    {
      prefix := None;
      key := None;
      clicked := false;
      error := NoError;
    }

    method AddKey(k: int)
      modifies this
      ensures State() == AddKeyTo(old(State()), k)
    {
      error := NoError;
      if '0' as int <= k <= '9' as int {
        if key.Some? {
          ResetAll();
        }
        if prefix.None? {
          prefix := Some(0);
        }
        prefix := Some(prefix.value * 10 + (k - '0' as int));
        return;
      }
      if key.Some? {
        ResetAll();
      }
      key := Some(k);
    }

    method AddClick()
      modifies this
      ensures State() == AddClickTo(old(State()))
    {
      error := NoError;
      if clicked {
        ResetAll();
      }
      clicked := true;
    }

    method SetError(e: BufferError)
      modifies this
      ensures State() == WithError(e)
    {
      ResetAll();
      error := e;
    }

    method ToString() returns (out: string)
      ensures out == Show(State())
    {
      match error {
        case UnknownCommand => return "Err: UNKNOWN CMD";
        case UsageError => return "Err: USAGE";
        case NoError =>
      }
      out := "";
      if prefix.Some? {
        out := out + IntToString(prefix.value);
      }
      if key.Some? {
        if out != "" {
          out := out + " ";
        }
        out := out + KeyToString(key.value);
      }
    }
  }

  // ---------------------------------------------------------------------
  // Commands

  /** The mouse position and the candidate arguments a command may take. */
  datatype Args = Args(prefix: Option<int>, focus: Option<int>, over: Option<int>, mouse: (int, int))

  datatype ExecuteResult = ExecUsage | ExecError | ExecOk

  datatype EvaluateResult = NeedClick | EvalOk

  /** Where an argument command may take its argument from. */
  datatype ArgSource = Prefix | Focus | Over

  /** PREFER takes the first source present, EXCLUSIVE insists on exactly one. */
  datatype ArgMode = Prefer | Exclusive

  /**
   * A command. The function a command runs is represented by the result it
   * returns; what it was called with is reported by Execute.
   */
  datatype Command =
    | Bare(key: int, help: string, result: ExecuteResult)
    | WithArg(key: int, help: string, sources: set<ArgSource>, mode: ArgMode, clickRequired: bool, result: ExecuteResult)

  /** ArgCommand: an argument command that needs no click. */
  function ArgCommand(key: int, help: string, sources: set<ArgSource>, mode: ArgMode, result: ExecuteResult): Command
  {
    WithArg(key, help, sources, mode, false, result)
  }

  /** ClickCommand: an argument command that waits for a click. */
  function ClickCommand(key: int, help: string, sources: set<ArgSource>, mode: ArgMode, result: ExecuteResult): Command
  {
    WithArg(key, help, sources, mode, true, result)
  }

  /** The configured sources that have a value, in precedence order PREFIX, FOCUS, OVER. */
  function Offered(sources: set<ArgSource>, args: Args): seq<int>
  {
    (if Prefix in sources && args.prefix.Some? then [args.prefix.value] else [])
    + (if Focus in sources && args.focus.Some? then [args.focus.value] else [])
    + (if Over in sources && args.over.Some? then [args.over.value] else [])
  }

  /** BareCommand takes no prefix; an argument command needs one offered source, or exactly one when exclusive. */
  function ArgsAreValid(c: Command, args: Args): bool
  {
    match c
    case Bare(_, _, _) => args.prefix.None?
    case WithArg(_, _, sources, mode, _, _) =>
      var n := |Offered(sources, args)|;
      if mode == Prefer then n >= 1 else n == 1
  }

  /** The argument an argument command is given. */
  function ArgFromArgs(c: Command, args: Args): int
    requires c.WithArg? && ArgsAreValid(c, args)
  {
    Offered(c.sources, args)[0]
  }

  /** The default Evaluate answers EVAL_OK; a click command waits for the click. */
  function Evaluate(c: Command, buf: BufferState): EvaluateResult
  {
    if c.WithArg? && c.clickRequired && !buf.clicked then NeedClick else EvalOk
  }

  /** How a command's function was called, if it was. */
  datatype Call = NotCalled | CalledBare | CalledWith(arg: int) | CalledAt(mouse: (int, int), arg: int)

  /**
   * Command::Execute: invalid arguments answer USAGE without calling the
   * function; otherwise the function runs and its result is returned.
   */
  function Execute(c: Command, args: Args): (r: (ExecuteResult, Call))
    ensures r.1.NotCalled? <==> !ArgsAreValid(c, args)
    ensures r.1.NotCalled? ==> r.0 == ExecUsage
    ensures !r.1.NotCalled? ==> r.0 == c.result
  {
    if !ArgsAreValid(c, args) then (ExecUsage, NotCalled)
    else match c
      case Bare(_, _, result) => (result, CalledBare)
      case WithArg(_, _, _, _, click, result) =>
        if click then (result, CalledAt(args.mouse, ArgFromArgs(c, args)))
        else (result, CalledWith(ArgFromArgs(c, args)))
  }

  function Count(b: bool): nat { if b then 1 else 0 }

  /**
   * PREFER: valid iff some configured source has a value, and the argument is
   * the prefix if it may be used, else the focus, else the pixel under the mouse.
   */
  lemma PreferPrecedence(c: Command, args: Args)
    requires c.WithArg? && c.mode == Prefer
    ensures var p := Prefix in c.sources && args.prefix.Some?;
            var f := Focus in c.sources && args.focus.Some?;
            var o := Over in c.sources && args.over.Some?;
            && (ArgsAreValid(c, args) <==> p || f || o)
            && (p ==> Execute(c, args).1.arg == args.prefix.value)
            && (!p && f ==> Execute(c, args).1.arg == args.focus.value)
            && (!p && !f && o ==> Execute(c, args).1.arg == args.over.value)
  {
  }

  /**
   * EXCLUSIVE: valid iff exactly one configured source has a value, and then
   * that is the argument; sources not configured are ignored.
   */
  lemma ExclusiveOne(c: Command, args: Args)
    requires c.WithArg? && c.mode == Exclusive
    ensures var p := Prefix in c.sources && args.prefix.Some?;
            var f := Focus in c.sources && args.focus.Some?;
            var o := Over in c.sources && args.over.Some?;
            && (ArgsAreValid(c, args) <==> Count(p) + Count(f) + Count(o) == 1)
            && (ArgsAreValid(c, args) && p ==> Execute(c, args).1.arg == args.prefix.value)
            && (ArgsAreValid(c, args) && f ==> Execute(c, args).1.arg == args.focus.value)
            && (ArgsAreValid(c, args) && o ==> Execute(c, args).1.arg == args.over.value)
  {
  }

  /** A bare command given a prefix answers USAGE and does not run. */
  lemma BareWithPrefix(key: int, help: string, result: ExecuteResult, prefix: int, focus: Option<int>, over: Option<int>, mouse: (int, int))
    ensures Execute(Bare(key, help, result), Args(Some(prefix), focus, over, mouse)) == (ExecUsage, NotCalled)
    ensures Execute(Bare(key, help, result), Args(None, focus, over, mouse)) == (result, CalledBare)
  {
  }

  /** With no argument at all every argument command answers USAGE, whatever its mode. */
  lemma NoArgs(c: Command, mouse: (int, int))
    requires c.WithArg?
    ensures Execute(c, Args(None, None, None, mouse)) == (ExecUsage, NotCalled)
  {
  }

  /** A click command needs the click after its key, then is ready; the argument must still come from a source. */
  lemma ClickSequence(result: ExecuteResult)
    ensures var c := ClickCommand('c' as int, "help", {Prefix, Focus}, Exclusive, result);
            var buf := AddKeyTo(Empty, 'c' as int);
            && Evaluate(c, buf) == NeedClick
            && Evaluate(c, AddClickTo(buf)) == EvalOk
            && Execute(c, Args(None, None, None, (10, 20))) == (ExecUsage, NotCalled)
            && Execute(c, Args(Some(123), None, None, (10, 20))) == (result, CalledAt((10, 20), 123))
  {
  }

  /** Commands other than click commands are always ready. */
  lemma EvaluateDefault(c: Command, buf: BufferState)
    requires c.Bare? || !c.clickRequired
    ensures Evaluate(c, buf) == EvalOk
  {
  }

  // ---------------------------------------------------------------------
  // The keymap

  datatype LookupResult = Continue | UnknownKey | Found(command: Command)

  /** The '?' command the keymap always has. */
  const HelpCommand: Command := Bare('?' as int, "lists registered commands", ExecOk)

  /** Commands by key; '?' is always there and every command is filed under its own key. */
  class Keymap {
    var keys: map<int, Command>

    ghost predicate Valid()
      reads this
    {
      && '?' as int in keys
      && forall k :: k in keys ==> keys[k].key == k
    }

    constructor ()
      ensures Valid() && keys == map['?' as int := HelpCommand]
    {
      keys := map['?' as int := HelpCommand];
    }

    /** Add: a second command for a key is fatal and is not filed. */
    method Add(command: Command) returns (fatal: bool)
      requires Valid()
      modifies this
      ensures Valid()
      ensures fatal <==> command.key in old(keys)
      ensures keys == if fatal then old(keys) else old(keys)[command.key := command]
    {
      fatal := command.key in keys;
      if !fatal {
        keys := keys[command.key := command];
      }
    }

    /** No key yet: keep collecting; a filed key: its command; any other key: unknown. */
    function Lookup(buf: BufferState): (r: LookupResult)
      reads this
      ensures r == Continue <==> buf.key.None?
      ensures r.Found? <==> buf.key.Some? && buf.key.value in keys
      ensures r.Found? ==> r.command == keys[buf.key.value]
    {
      if buf.key.None? then Continue
      else if buf.key.value in keys then Found(keys[buf.key.value])
      else UnknownKey
    }

    /** '?' always finds the help command's slot, and a found command carries the buffered key. */
    lemma LookupFiled(buf: BufferState)
      requires Valid()
      ensures buf.key == Some('?' as int) ==> Lookup(buf).Found?
      ensures Lookup(buf).Found? ==> Lookup(buf).command.key == buf.key.value
    {
    }
  }
}
