/** `main.CommandLine`: the classification of command-line tokens and the scan of the
    argument list at the start of `run`. `System.exit` ends the scan with `ProgramExit`;
    the messages printed before it are not modelled. */
module CommandLine {
  import opened Wrappers

  const OPTIONS: seq<string> := ["-h", "-c", "-s"]
  const MODES: seq<string> := ["rgb", "hsb", "hex", "cmyk"]

  /** Whether `arg` equals an element of `list`, searched in order. */
  function Contains(list: seq<string>, arg: string): (r: bool)
    ensures r <==> arg in list
  {
    if list == [] then false
    else if list[0] == arg then true
    else Contains(list[1..], arg)
  }

  /** `argumentType(arg)`: 1 for an option, 2 for a colour mode, 0 for anything else,
      comparing exactly. */
  function ArgumentType(arg: string): (r: nat)
    ensures r == 1 <==> arg in OPTIONS
    ensures r == 2 <==> arg in MODES
    ensures r == 0 <==> arg !in OPTIONS && arg !in MODES
  {
    if Contains(OPTIONS, arg) then 1
    else if Contains(MODES, arg) then 2
    else 0
  }

  /** What the scan collects: the options in order, and the last mode with its value. */
  datatype Scan = Scan(options: seq<string>, mode: Option<string>, value: Option<string>)

  const Initial := Scan([], None, None)

  /** The scan of the remaining tokens from a state: an option is appended, a mode takes
      the next token as its value whatever it is, and an unknown token or a mode with
      nothing after it exits. */
  function ScanOf(args: seq<string>, st: Scan): Result<Scan>
    decreases |args|
  {
    if args == [] then Ok(st)
    else match ArgumentType(args[0])
      case 1 => ScanOf(args[1..], st.(options := st.options + [args[0]]))
      case 2 =>
        if |args| < 2 then Err(ProgramExit)
        else ScanOf(args[2..], st.(mode := Some(args[0]), value := Some(args[1])))
      case _ => Err(ProgramExit)
  }

  /** The loop of `run` (lines 25-45): `option`, `cMode` and `cValue` updated token by
      token, the index skipping the value of a mode. */
  method ScanArguments(args: seq<string>) returns (r: Result<Scan>)
    ensures r == ScanOf(args, Initial)
  {
    var option: seq<string> := [];
    var cMode: Option<string> := None;
    var cValue: Option<string> := None;
    var i := 0;
    while i < |args|
      invariant 0 <= i <= |args|
      invariant ScanOf(args, Initial) == ScanOf(args[i..], Scan(option, cMode, cValue))
      decreases |args| - i
    {
      var kind := ArgumentType(args[i]);
      if kind == 0 {
        return Err(ProgramExit);
      } else if kind == 1 {
        assert args[i..][1..] == args[i + 1..];
        option := option + [args[i]];
      } else {
        if i + 1 >= |args| {
          return Err(ProgramExit);
        }
        assert args[i..][2..] == args[i + 2..];
        cMode := Some(args[i]);
        cValue := Some(args[i + 1]);
        i := i + 1;
      }
      i := i + 1;
    }
    return Ok(Scan(option, cMode, cValue));
  }

  // ------------------------------------------------------------- lemmas

  /** The scan never fails any other way than by exiting. */
  lemma {:induction false} OnlyExit(args: seq<string>, st: Scan)
    ensures ScanOf(args, st).Err? ==> ScanOf(args, st).error == ProgramExit
    decreases |args|
  {
    if args != [] {
      if ArgumentType(args[0]) == 1 {
        OnlyExit(args[1..], st.(options := st.options + [args[0]]));
      } else if ArgumentType(args[0]) == 2 && |args| >= 2 {
        OnlyExit(args[2..], st.(mode := Some(args[0]), value := Some(args[1])));
      }
    }
  }

  /** A run of options is appended to the option list in order, repeats included. */
  lemma {:induction false} OptionsAppended(os: seq<string>, rest: seq<string>, st: Scan)
    requires forall k :: 0 <= k < |os| ==> ArgumentType(os[k]) == 1
    ensures ScanOf(os + rest, st) == ScanOf(rest, st.(options := st.options + os))
    decreases |os|
  {
    if os == [] {
      assert os + rest == rest;
      assert st.options + os == st.options;
    } else {
      assert os + rest == [os[0]] + (os[1..] + rest);
      OptionStep(os[0], os[1..] + rest, st);
      OptionsAppended(os[1..], rest, st.(options := st.options + [os[0]]));
      assert st.options + [os[0]] + os[1..] == st.options + os;
    }
  }

  /** One option is appended and the scan goes on with the next token. */
  lemma OptionStep(o: string, rest: seq<string>, st: Scan)
    requires ArgumentType(o) == 1
    ensures ScanOf([o] + rest, st) == ScanOf(rest, st.(options := st.options + [o]))
  {
    assert ([o] + rest)[0] == o && ([o] + rest)[1..] == rest;
  }

  /** A mode takes the next token as its value even when that token is an option, a mode
      or unknown. */
  lemma ModeTakesNext(m: string, v: string, rest: seq<string>, st: Scan)
    requires ArgumentType(m) == 2
    ensures ScanOf([m, v] + rest, st) == ScanOf(rest, st.(mode := Some(m), value := Some(v)))
  {
    assert ([m, v] + rest)[2..] == rest;
  }

  /** A mode as the last token exits. */
  lemma ModeWithoutValueExits(m: string, st: Scan)
    requires ArgumentType(m) == 2
    ensures ScanOf([m], st) == Err(ProgramExit)
  {
  }

  /** An unknown token exits, whatever follows it. */
  lemma UnknownExits(u: string, rest: seq<string>, st: Scan)
    requires ArgumentType(u) == 0
    ensures ScanOf([u] + rest, st) == Err(ProgramExit)
  {
    assert ([u] + rest)[0] == u;
  }

  /** A later mode and value replace an earlier pair. */
  lemma LaterModeWins(m1: string, v1: string, m2: string, v2: string, st: Scan)
    requires ArgumentType(m1) == 2 && ArgumentType(m2) == 2
    ensures ScanOf([m1, v1, m2, v2], st) == Ok(st.(mode := Some(m2), value := Some(v2)))
  {
    ModeTakesNext(m1, v1, [m2, v2], st);
    ModeTakesNext(m2, v2, [], st.(mode := Some(m1), value := Some(v1)));
    assert [m1, v1] + [m2, v2] == [m1, v1, m2, v2];
    assert [m2, v2] + [] == [m2, v2];
  }

  /** The arguments a scan result stands for: the options, then the mode and its value. */
  function Arguments(s: Scan): seq<string>
    requires s.mode.Some? <==> s.value.Some?
  {
    s.options + (if s.mode.Some? then [s.mode.value, s.value.value] else [])
  }

  /** Scanning the arguments a result stands for gives that result back. */
  lemma ScanArgumentsRoundTrip(s: Scan)
    requires s.mode.Some? <==> s.value.Some?
    requires forall k :: 0 <= k < |s.options| ==> ArgumentType(s.options[k]) == 1
    requires s.mode.Some? ==> ArgumentType(s.mode.value) == 2
    ensures ScanOf(Arguments(s), Initial) == Ok(s)
  {
    var tail := if s.mode.Some? then [s.mode.value, s.value.value] else [];
    OptionsAppended(s.options, tail, Initial);
    assert Initial.options + s.options == s.options;
    if s.mode.Some? {
      ModeTakesNext(s.mode.value, s.value.value, [], Initial.(options := s.options));
      assert tail + [] == tail;
    }
  }
}
