/** Resolving placeholder values (internal/instruction/resolver.go): each
    variable takes the value of the first of its options that is offered,
    either standard input for the reserved option `input` or a command-line
    flag, whose value is replaced by a file's contents when it names one. */
module Resolvers {
  import opened Wrappers
  import opened Strings
  import opened Variables

  /** What `os.Stat` and `os.ReadFile` see at a path: a directory, or a file
      whose contents can be read (`Some`) or not (`None`). A path that is not
      in the map does not exist. */
  datatype Entry = Directory | RegularFile(contents: Option<string>)

  type FileSystem = map<string, Entry>

  /** `isFile`: the path exists and is not a directory. */
  predicate IsFile(fs: FileSystem, path: string) {
    path in fs && fs[path].RegularFile?
  }

  /** `readFile`, for a path `IsFile` accepted. */
  function ReadFile(fs: FileSystem, path: string): Option<string>
    requires IsFile(fs, path)
  {
    fs[path].contents
  }

  /** The option name reserved for standard input. */
  const InputOption: string := "input"

  /** How the help text lists an option of an unresolved variable. */
  datatype Hint = StdinHint | FlagHint(flag: string)

  datatype ResolveError =
    | StdinNotAccepted
    | FileReadFailed(path: string)
    | RequiredMissing(raw: string, option: string)
    | NeedsOneOf(raw: string, hints: seq<Hint>)

  // ---------------------------------------------------------------------------
  // The policy, as functions

  /** Some variable lists `input` among its options. */
  predicate DeclaresInput(variables: seq<Variable>) {
    exists v :: v in variables && InputOption in v.options
  }

  /** The outcome of trying a variable's options. */
  datatype Pick = Picked(option: string, value: string) | ReadFailed(path: string) | NoneSatisfied

  datatype Resolver = Resolver(variables: seq<Variable>, stdin: string, flags: map<string, string>)
  {
    /** `opt` can supply a value: it is `input` and standard input is not
        empty, or a flag of that name was given. */
    predicate Offers(opt: string) {
      (opt == InputOption && stdin != "") || opt in flags
    }

    /** The value an offering option supplies: standard input, the contents
        of the file the flag names, or the flag's own text. */
    function ValueOf(fs: FileSystem, opt: string): (p: Pick)
      requires Offers(opt)
      ensures p.Picked? ==> p.option == opt
      ensures p.ReadFailed? <==> !(opt == InputOption && stdin != "") && IsFile(fs, flags[opt])
                                 && fs[flags[opt]].contents.None?
    {
      if opt == InputOption && stdin != "" then Picked(opt, stdin)
      else
        var flagValue := flags[opt];
        if IsFile(fs, flagValue) then
          match ReadFile(fs, flagValue)
          case None => ReadFailed(flagValue)
          case Some(content) => Picked(opt, content)
        else Picked(opt, flagValue)
    }

    /** The options are tried in the order written; the first that offers a
        value decides. */
    function PickFrom(fs: FileSystem, options: seq<string>): (p: Pick)
      ensures p.NoneSatisfied? ==> forall k :: 0 <= k < |options| ==> !Offers(options[k])
      decreases |options|
    {
      if options == [] then NoneSatisfied
      else if Offers(options[0]) then ValueOf(fs, options[0])
      else PickFrom(fs, options[1..])
    }

    /** One variable: its value, or the error it causes. An option with an
        empty name counts as unresolved, since the empty string is the
        "nothing chosen yet" marker. */
    function Settle(fs: FileSystem, v: Variable): Result<string, ResolveError> {
      match PickFrom(fs, v.options)
      case ReadFailed(path) => Err(FileReadFailed(path))
      case Picked(opt, value) => if opt != "" then Ok(value) else Err(Missing(v))
      case NoneSatisfied => Err(Missing(v))
    }

    /** The variables from `vars` on, with `acc` resolved so far. */
    function ResolveFrom(fs: FileSystem, vars: seq<Variable>, acc: map<string, string>): Result<map<string, string>, ResolveError>
      decreases |vars|
    {
      if vars == [] then Ok(acc)
      else
        match Settle(fs, vars[0])
        case Err(e) => Err(e)
        case Ok(value) => ResolveFrom(fs, vars[1..], acc[vars[0].raw := value])
    }

    /** `Resolve` as a function: standard input for an instruction that has no
        `input` option is refused first; then the variables are resolved in
        order and the first one that fails decides the error. */
    function Resolution(fs: FileSystem): Result<map<string, string>, ResolveError> {
      if stdin != "" && !DeclaresInput(variables) then Err(StdinNotAccepted)
      else ResolveFrom(fs, variables, map[])
    }

    /** The pre-check's nested search for a variable with an `input` option. */
    method HasInputOption() returns (found: bool)
      ensures found == DeclaresInput(variables)
    {
      found := false;
      var k := 0;
      while k < |variables|
        invariant 0 <= k <= |variables|
        invariant !found
        invariant forall m :: 0 <= m < k ==> InputOption !in variables[m].options
      {
        var opts := variables[k].options;
        var i := 0;
        while i < |opts|
          invariant 0 <= i <= |opts|
          invariant !found
          invariant forall p :: 0 <= p < i ==> opts[p] != InputOption
        {
          if opts[i] == InputOption {
            found := true;
            break;
          }
          i := i + 1;
        }
        if found {
          assert variables[k] in variables;
          break;
        }
        k := k + 1;
      }
    }

    /** The inner loop of `Resolve`: tries a variable's options in order and
        stops at the first that offers a value, reading the file a flag
        names. */
    method TryOptions(fs: FileSystem, variable: Variable) returns (p: Pick)
      ensures p == PickFrom(fs, variable.options)
    {
      var i := 0;
      while i < |variable.options|
        invariant 0 <= i <= |variable.options|
        invariant PickFrom(fs, variable.options[i..]) == PickFrom(fs, variable.options)
      {
        var option := variable.options[i];
        assert variable.options[i..][1..] == variable.options[i + 1..];
        if option == InputOption && stdin != "" {
          return Picked(option, stdin);
        }
        if option in flags {
          var flagValue := flags[option];
          if IsFile(fs, flagValue) {
            var content := ReadFile(fs, flagValue);
            if content.None? {
              return ReadFailed(flagValue);
            }
            return Picked(option, content.value);
          }
          return Picked(option, flagValue);
        }
        i := i + 1;
      }
      return NoneSatisfied;
    }

    /** `Resolve`: the pre-check, then a walk over the variables that fills
        the map one entry at a time and stops at the first failure. */
    method Resolve(fs: FileSystem) returns (r: Result<map<string, string>, ResolveError>)
      ensures r == Resolution(fs)
    {
      var hasInputOption := HasInputOption();
      if stdin != "" && !hasInputOption {
        return Err(StdinNotAccepted);
      }

      var resolved: map<string, string> := map[];
      var k := 0;
      while k < |variables|
        invariant 0 <= k <= |variables|
        invariant ResolveFrom(fs, variables[k..], resolved) == ResolveFrom(fs, variables, map[])
      {
        var variable := variables[k];
        assert variables[k..][0] == variable;
        assert variables[k..][1..] == variables[k + 1..];
        var value := "";
        var resolvedOption := "";
        var pick := TryOptions(fs, variable);
        match pick {
          case ReadFailed(path) =>
            return Err(FileReadFailed(path));
          case Picked(option, v) =>
            value := v;
            resolvedOption := option;
          case NoneSatisfied =>
        }

        if resolvedOption == "" {
          if |variable.options| == 1 {
            return Err(RequiredMissing(variable.raw, variable.options[0]));
          }
          var hints := OptionsHelp(variable.options);
          return Err(NeedsOneOf(variable.raw, hints));
        }

        resolved := resolved[variable.raw := value];
        k := k + 1;
      }
      r := Ok(resolved);
    }
  }

  /** The loop that lists every option of an unresolved variable. */
  method OptionsHelp(options: seq<string>) returns (hints: seq<Hint>)
    ensures hints == Hints(options)
  {
    hints := [];
    var j := 0;
    while j < |options|
      invariant 0 <= j <= |options|
      invariant hints == Hints(options[..j])
    {
      hints := hints + [HintFor(options[j])];
      assert options[..j + 1] == options[..j] + [options[j]];
      j := j + 1;
    }
    assert options[..j] == options;
  }

  /** How one option is listed in the help text. */
  function HintFor(opt: string): (h: Hint)
    ensures h.StdinHint? <==> opt == InputOption
    ensures h.FlagHint? ==> h.flag == opt
  {
    if opt == InputOption then StdinHint else FlagHint(opt)
  }

  /** The help list for a variable's options, one entry per option in order. */
  function Hints(options: seq<string>): (hs: seq<Hint>)
    ensures |hs| == |options|
    ensures forall i :: 0 <= i < |options| ==> hs[i] == HintFor(options[i])
  {
    seq(|options|, i requires 0 <= i < |options| => HintFor(options[i]))
  }

  /** The error for a variable none of whose options supplied a value. */
  function Missing(v: Variable): (e: ResolveError)
    ensures e.RequiredMissing? <==> |v.options| == 1
    ensures e.RequiredMissing? ==> e == RequiredMissing(v.raw, v.options[0])
    ensures e.NeedsOneOf? ==> e.raw == v.raw && e.hints == Hints(v.options)
    ensures e.NeedsOneOf? ==> forall i :: 0 <= i < |v.options| ==>
              (e.hints[i] == StdinHint <==> v.options[i] == InputOption)
  {
    if |v.options| == 1 then RequiredMissing(v.raw, v.options[0]) else NeedsOneOf(v.raw, Hints(v.options))
  }

  // ---------------------------------------------------------------------------
  // Properties of the policy

  /** The first option that offers a value is the one whose value is taken;
      options after it are never looked at. */
  lemma {:induction false} PickFirst(r: Resolver, fs: FileSystem, options: seq<string>, k: nat)
    requires k < |options| && r.Offers(options[k])
    requires forall j :: 0 <= j < k ==> !r.Offers(options[j])
    ensures r.PickFrom(fs, options) == r.ValueOf(fs, options[k])
    decreases k
  {
    if k > 0 {
      assert !r.Offers(options[0]);
      PickFirst(r, fs, options[1..], k - 1);
    }
  }

  /** Nothing is picked exactly when no option offers a value. */
  lemma {:induction false} PickNone(r: Resolver, fs: FileSystem, options: seq<string>)
    ensures r.PickFrom(fs, options).NoneSatisfied? <==> forall k :: 0 <= k < |options| ==> !r.Offers(options[k])
    decreases |options|
  {
    if options != [] && !r.Offers(options[0]) {
      PickNone(r, fs, options[1..]);
      assert forall k :: 1 <= k < |options| ==> options[k] == options[1..][k - 1];
    }
  }

  /** `input` offers standard input whenever it is not empty, even if a flag
      named `input` was also given. */
  lemma InputTakesStdin(r: Resolver, fs: FileSystem)
    requires r.stdin != ""
    ensures r.ValueOf(fs, InputOption) == Picked(InputOption, r.stdin)
  {
  }

  /** A flag whose value names a readable file supplies the file's contents;
      one whose value names nothing, or a directory, supplies its own text. */
  lemma FlagValue(r: Resolver, fs: FileSystem, opt: string)
    requires opt in r.flags && !(opt == InputOption && r.stdin != "")
    ensures var path := r.flags[opt];
            && (path in fs && fs[path] == RegularFile(None) ==> r.ValueOf(fs, opt) == ReadFailed(path))
            && (forall c :: path in fs && fs[path] == RegularFile(Some(c)) ==> r.ValueOf(fs, opt) == Picked(opt, c))
            && (path !in fs || fs[path].Directory? ==> r.ValueOf(fs, opt) == Picked(opt, path))
  {
  }

  /** Only the pre-check refuses standard input: resolving the variables never
      produces that error. */
  lemma {:induction false} ResolveFromNeverRefusesStdin(r: Resolver, fs: FileSystem, vars: seq<Variable>, acc: map<string, string>)
    ensures r.ResolveFrom(fs, vars, acc) != Err(StdinNotAccepted)
    decreases |vars|
  {
    if vars != [] && r.Settle(fs, vars[0]).Ok? {
      ResolveFromNeverRefusesStdin(r, fs, vars[1..], acc[vars[0].raw := r.Settle(fs, vars[0]).value]);
    }
  }

  /** Standard input is refused exactly when it is not empty and no variable
      declares `input`, whatever the flags and files. */
  lemma StdinRefused(r: Resolver, fs: FileSystem)
    ensures r.Resolution(fs) == Err(StdinNotAccepted) <==> r.stdin != "" && !DeclaresInput(r.variables)
  {
    ResolveFromNeverRefusesStdin(r, fs, r.variables, map[]);
  }

  /** The set of raw texts of some variables. */
  function RawSet(vars: seq<Variable>): (s: set<string>)
    ensures forall k :: 0 <= k < |vars| ==> vars[k].raw in s
    ensures forall x :: x in s ==> exists k :: 0 <= k < |vars| && vars[k].raw == x
  {
    set k | 0 <= k < |vars| :: vars[k].raw
  }

  /** Resolution of a list succeeds exactly when every variable settles. */
  lemma {:induction false} ResolveFromOk(r: Resolver, fs: FileSystem, vars: seq<Variable>, acc: map<string, string>)
    ensures r.ResolveFrom(fs, vars, acc).Ok? <==> forall k :: 0 <= k < |vars| ==> r.Settle(fs, vars[k]).Ok?
    decreases |vars|
  {
    if vars != [] {
      var rest := vars[1..];
      assert forall k :: 1 <= k < |vars| ==> vars[k] == rest[k - 1];
      if r.Settle(fs, vars[0]).Ok? {
        ResolveFromOk(r, fs, rest, acc[vars[0].raw := r.Settle(fs, vars[0]).value]);
      }
    }
  }

  /** A successful resolution adds one key per raw text to what was resolved
      before. */
  lemma {:induction false} ResolveFromKeys(r: Resolver, fs: FileSystem, vars: seq<Variable>, acc: map<string, string>)
    requires r.ResolveFrom(fs, vars, acc).Ok?
    ensures r.ResolveFrom(fs, vars, acc).value.Keys == acc.Keys + RawSet(vars)
    decreases |vars|
  {
    if vars != [] {
      var rest := vars[1..];
      var acc' := acc[vars[0].raw := r.Settle(fs, vars[0]).value];
      ResolveFromKeys(r, fs, rest, acc');
      assert RawSet(vars) == {vars[0].raw} + RawSet(rest) by {
        assert forall k :: 1 <= k < |vars| ==> vars[k] == rest[k - 1];
      }
    }
  }

  /** With distinct raw texts, each variable's key holds the value it settled
      on. */
  lemma {:induction false} ResolveFromValues(r: Resolver, fs: FileSystem, vars: seq<Variable>, acc: map<string, string>)
    requires Distinct(Raws(vars))
    requires r.ResolveFrom(fs, vars, acc).Ok?
    ensures forall k :: 0 <= k < |vars| ==>
              && r.Settle(fs, vars[k]).Ok?
              && vars[k].raw in r.ResolveFrom(fs, vars, acc).value
              && r.ResolveFrom(fs, vars, acc).value[vars[k].raw] == r.Settle(fs, vars[k]).value
    decreases |vars|
  {
    if vars != [] {
      var rest := vars[1..];
      var acc' := acc[vars[0].raw := r.Settle(fs, vars[0]).value];
      assert Raws(rest) == Raws(vars)[1..];
      ResolveFromValues(r, fs, rest, acc');
      var m := r.ResolveFrom(fs, vars, acc).value;
      assert m == r.ResolveFrom(fs, rest, acc').value;
      assert vars[0].raw !in RawSet(rest) by {
        forall k | 0 <= k < |rest| ensures rest[k].raw != vars[0].raw {
          assert Raws(vars)[0] != Raws(vars)[k + 1];
        }
      }
      PreservedOutsideRaws(r, fs, rest, acc', vars[0].raw);
      forall k | 0 <= k < |vars|
        ensures r.Settle(fs, vars[k]).Ok? && vars[k].raw in m && m[vars[k].raw] == r.Settle(fs, vars[k]).value
      {
        if k > 0 {
          assert vars[k] == rest[k - 1];
        }
      }
    }
  }

  /** A key that no variable of the list writes keeps its earlier value. */
  lemma {:induction false} PreservedOutsideRaws(r: Resolver, fs: FileSystem, vars: seq<Variable>, acc: map<string, string>, key: string)
    requires key in acc && key !in RawSet(vars)
    requires r.ResolveFrom(fs, vars, acc).Ok?
    ensures key in r.ResolveFrom(fs, vars, acc).value && r.ResolveFrom(fs, vars, acc).value[key] == acc[key]
    decreases |vars|
  {
    if vars != [] {
      var rest := vars[1..];
      assert RawSet(rest) <= RawSet(vars) by {
        forall x | x in RawSet(rest) ensures x in RawSet(vars) {
          var k :| 0 <= k < |rest| && rest[k].raw == x;
          assert vars[k + 1] == rest[k];
        }
      }
      PreservedOutsideRaws(r, fs, rest, acc[vars[0].raw := r.Settle(fs, vars[0]).value], key);
    }
  }

  /** The first variable in list order that fails decides the error. */
  lemma {:induction false} FirstFailureDecides(r: Resolver, fs: FileSystem, vars: seq<Variable>, acc: map<string, string>, k: nat)
    requires k < |vars| && r.Settle(fs, vars[k]).Err?
    requires forall j :: 0 <= j < k ==> r.Settle(fs, vars[j]).Ok?
    ensures r.ResolveFrom(fs, vars, acc) == Err(r.Settle(fs, vars[k]).error)
    decreases k
  {
    if k > 0 {
      assert r.Settle(fs, vars[0]).Ok?;
      var rest := vars[1..];
      assert forall j :: 0 <= j < k - 1 ==> rest[j] == vars[j + 1];
      FirstFailureDecides(r, fs, rest, acc[vars[0].raw := r.Settle(fs, vars[0]).value], k - 1);
    }
  }

  /** `Resolve` succeeds exactly when the pre-check passes and every
      variable settles; the keys are then exactly the variables' raw texts. */
  lemma ResolutionOk(r: Resolver, fs: FileSystem)
    ensures r.Resolution(fs).Ok? <==>
              !(r.stdin != "" && !DeclaresInput(r.variables))
              && forall k :: 0 <= k < |r.variables| ==> r.Settle(fs, r.variables[k]).Ok?
    ensures r.Resolution(fs).Ok? ==> r.Resolution(fs).value.Keys == RawSet(r.variables)
  {
    ResolveFromOk(r, fs, r.variables, map[]);
    if r.Resolution(fs).Ok? {
      ResolveFromKeys(r, fs, r.variables, map[]);
    }
  }

  /** A variable settles on a value exactly when some option offers one, the
      first such option has a non-empty name, and reading its file (if any)
      succeeds. */
  lemma SettleOk(r: Resolver, fs: FileSystem, v: Variable, k: nat)
    requires k < |v.options| && r.Offers(v.options[k])
    requires forall j :: 0 <= j < k ==> !r.Offers(v.options[j])
    ensures r.Settle(fs, v).Ok? <==> v.options[k] != "" && r.ValueOf(fs, v.options[k]).Picked?
    ensures r.Settle(fs, v).Ok? ==> r.Settle(fs, v).value == r.ValueOf(fs, v.options[k]).value
  {
    PickFirst(r, fs, v.options, k);
  }

  /** `{{input|text}}` with standard input and a `--text` flag takes standard
      input. */
  lemma StdinBeatsFlag(r: Resolver, fs: FileSystem)
    requires r.variables == [Variable("{{input|text}}", ["input", "text"])]
    requires r.stdin != "" && "text" in r.flags
    ensures r.Resolution(fs) == Ok(map["{{input|text}}" := r.stdin])
  {
    var v := r.variables[0];
    assert v in r.variables && InputOption in v.options;
    PickFirst(r, fs, v.options, 0);
    assert r.Settle(fs, v) == Ok(r.stdin);
    assert r.variables[1..] == [];
    assert r.ResolveFrom(fs, r.variables, map[]) == r.ResolveFrom(fs, [], map[v.raw := r.stdin]);
  }

  /** The empty option of `{{a||b}}` counts as unresolved even when a flag
      with the empty name was given, and the later option `b` is not tried. */
  lemma EmptyOptionUnresolved(r: Resolver, fs: FileSystem)
    requires r.variables == [Variable("{{a||b}}", ["a", "", "b"])]
    requires r.stdin == "" && "a" !in r.flags && "" in r.flags && "b" in r.flags
    requires !IsFile(fs, r.flags[""])
    ensures r.Resolution(fs) == Err(NeedsOneOf("{{a||b}}", [FlagHint("a"), FlagHint(""), FlagHint("b")]))
  {
    var v := r.variables[0];
    PickFirst(r, fs, v.options, 1);
    assert Hints(v.options) == [FlagHint("a"), FlagHint(""), FlagHint("b")];
  }

  /** A lone option that nothing supplies is reported as required. */
  lemma LoneOptionRequired(r: Resolver, fs: FileSystem, raw: string, opt: string)
    requires r.variables == [Variable(raw, [opt])]
    requires r.stdin == "" && opt !in r.flags
    ensures r.Resolution(fs) == Err(RequiredMissing(raw, opt))
  {
    PickNone(r, fs, [opt]);
  }

  // ---------------------------------------------------------------------------
  // The help text of a "needs one of" error

  /** One line of the help list, without its line break. The text `<name>` is
      printed literally. */
  function HelpLine(h: Hint): string {
    match h
    case StdinHint => StdinLine
    case FlagHint(f) => FlagLineStart + f + FlagLineMiddle + f + FlagLineEnd
  }

  const StdinLine: string := "  \U{2022} stdin (use: cat file | gliik <name>)"
  const FlagLineStart: string := "  \U{2022} --"
  const FlagLineMiddle: string := " (use: gliik <name> --"
  const FlagLineEnd: string := " <file|value>)"

  /** A help line holds no line break unless the option name does. */
  lemma HelpLineIsOneLine(h: Hint)
    requires h.FlagHint? ==> '\n' !in h.flag
    ensures '\n' !in HelpLine(h)
  {
    match h
    case StdinHint =>
      assert '\n' !in StdinLine;
    case FlagHint(f) =>
      assert '\n' !in FlagLineStart;
      assert '\n' !in FlagLineMiddle;
      assert '\n' !in FlagLineEnd;
  }

  /** The list as the loop builds it: each line is appended with a line break
      and, on every line but the last, that line break is cut off again. */
  function HelpTextAsWritten(hints: seq<Hint>): string
    decreases |hints|
  {
    if hints == [] then ""
    else if |hints| == 1 then HelpLine(hints[0]) + "\n"
    else HelpLine(hints[0]) + HelpTextAsWritten(hints[1..])
  }

  predicate NoNewlineInFlags(hints: seq<Hint>) {
    forall k :: 0 <= k < |hints| ==> hints[k].FlagHint? ==> '\n' !in hints[k].flag
  }

  /** As written, the whole list is one line: the only line break is the one
      at the very end, however many options there are. */
  lemma {:induction false} HelpTextIsOneLine(hints: seq<Hint>)
    requires |hints| >= 1 && NoNewlineInFlags(hints)
    ensures var t := HelpTextAsWritten(hints);
            |t| >= 1 && t[|t| - 1] == '\n' && '\n' !in t[..|t| - 1]
    decreases |hints|
  {
    var line := HelpLine(hints[0]);
    HelpLineIsOneLine(hints[0]);
    if |hints| > 1 {
      var rest := HelpTextAsWritten(hints[1..]);
      HelpTextIsOneLine(hints[1..]);
      var t := line + rest;
      assert t[..|t| - 1] == line + rest[..|rest| - 1];
    } else {
      assert (line + "\n")[..|line|] == line;
    }
  }

  /** For `{{input|text}}` the two entries run together on one line, with no
      break between them. */
  lemma HelpTextRunsTogether()
    ensures HelpTextAsWritten([StdinHint, FlagHint("text")])
            == HelpLine(StdinHint) + HelpLine(FlagHint("text")) + "\n"
  {
    assert [StdinHint, FlagHint("text")][1..] == [FlagHint("text")];
  }

  /** The lines of the help list. */
  function HelpLines(hints: seq<Hint>): (lines: seq<string>)
    ensures |lines| == |hints|
  {
    seq(|hints|, k requires 0 <= k < |hints| => HelpLine(hints[k]))
  }

  /** The help list as evidently intended: one line per option, separated by
      line breaks (the last line without one). */
  function HelpText(hints: seq<Hint>): string {
    if hints == [] then "" else Join(HelpLines(hints), '\n')
  }

  /** Splitting the intended help text at its line breaks gives back one line
      per option, in order. */
  lemma HelpTextLines(hints: seq<Hint>)
    requires |hints| >= 1 && NoNewlineInFlags(hints)
    ensures Split(HelpText(hints), '\n') == HelpLines(hints)
  {
    forall k | 0 <= k < |hints| ensures '\n' !in HelpLines(hints)[k] {
      HelpLineIsOneLine(hints[k]);
    }
    SplitJoin(HelpLines(hints), '\n');
  }

  /** The head of a "needs one of" message, up to the help list. */
  function NeedsOneOfHead(raw: string): string {
    "missing required variable\n\nVariable '" + raw + "' needs one of:\n"
  }

  /** The message of a "needs one of" error, with the help list as the loop
      builds it: for two or more options all entries share its last line. */
  function NeedsOneOfMessage(raw: string, hints: seq<Hint>): (msg: string)
    ensures var head := NeedsOneOfHead(raw);
            |msg| >= |head| && msg[..|head|] == head && msg[|head|..] == HelpTextAsWritten(hints)
    ensures |hints| >= 1 && NoNewlineInFlags(hints) ==>
              msg[|msg| - 1] == '\n' && '\n' !in msg[|NeedsOneOfHead(raw)|..|msg| - 1]
  {
    var head := NeedsOneOfHead(raw);
    var help := HelpTextAsWritten(hints);
    assert (head + help)[|head|..] == help;
    if |hints| >= 1 && NoNewlineInFlags(hints) then
      HelpTextIsOneLine(hints);
      assert (head + help)[|head|..|head| + |help| - 1] == help[..|help| - 1];
      head + help
    else
      head + help
  }

  /** The message as evidently intended: the head, then one help entry per
      line, the last without a line break. */
  function IntendedNeedsOneOfMessage(raw: string, hints: seq<Hint>): (msg: string)
    ensures var head := NeedsOneOfHead(raw);
            |msg| >= |head| && msg[..|head|] == head && msg[|head|..] == HelpText(hints)
    ensures |hints| >= 1 && NoNewlineInFlags(hints) ==>
              Split(msg[|NeedsOneOfHead(raw)|..], '\n') == HelpLines(hints)
  {
    var head := NeedsOneOfHead(raw);
    assert (head + HelpText(hints))[|head|..] == HelpText(hints);
    if |hints| >= 1 && NoNewlineInFlags(hints) then
      HelpTextLines(hints);
      head + HelpText(hints)
    else
      head + HelpText(hints)
  }
}
