/** Placeholder extraction (internal/instruction/variables.go): every match of
    the regular expression `\{\{([^}]+)\}\}` in the instruction text becomes a
    `Variable` whose options are the pipe-separated, trimmed pieces of the
    match's interior; a raw match seen twice is an error. */
module Variables {
  import opened Wrappers
  import opened Strings

  /** One placeholder: the whole match, braces included, and its options in
      the order written. */
  datatype Variable = Variable(raw: string, options: seq<string>)

  datatype ExtractError = DuplicateVariable(raw: string)

  // ---------------------------------------------------------------------------
  // The regular expression, stated directly

  /** `text[i..j + 2]` is a match of `\{\{([^}]+)\}\}`: two opening braces, one
      or more characters none of which is `}` (newlines and `{` included), and
      two closing braces. `j` is then the first `}` at or after `i + 2`. */
  predicate PlaceholderAt(text: string, i: int, j: int) {
    && 0 <= i && i + 3 <= j && j + 2 <= |text|
    && text[i] == '{' && text[i + 1] == '{'
    && (forall k :: i + 2 <= k < j ==> text[k] != '}')
    && text[j] == '}' && text[j + 1] == '}'
  }

  /** No match starts at any position in `[lo, hi)`. */
  ghost predicate NoPlaceholderIn(text: string, lo: int, hi: int) {
    forall i, j :: lo <= i < hi ==> !PlaceholderAt(text, i, j)
  }

  /** A match: `text[start..close + 2]`. */
  datatype Span = Span(start: nat, close: nat)

  /** `spans` are the leftmost-first, non-overlapping matches in `text` from
      position `from` on, in order: the first is the match that starts
      earliest at or after `from`, and the others are the matches from the end
      of the first one on. */
  ghost predicate Leftmost(text: string, from: int, spans: seq<Span>)
    decreases |spans|
  {
    if spans == [] then
      from <= |text| && NoPlaceholderIn(text, from, |text|)
    else
      && from <= spans[0].start
      && NoPlaceholderIn(text, from, spans[0].start)
      && PlaceholderAt(text, spans[0].start, spans[0].close)
      && Leftmost(text, spans[0].close + 2, spans[1..])
  }

  /** A match ends at the first `}` after its opening braces. */
  lemma PlaceholderClose(text: string, i: int, j: int)
    requires PlaceholderAt(text, i, j)
    ensures IndexFrom(text, "}", i + 2) == j
  {
    assert text[j..j + 1] == [text[j]];
    forall k | i + 2 <= k < j ensures !OccursAt(text, "}", k) {
      assert text[k..k + 1] == [text[k]];
    }
    IndexFromFinds(text, "}", i + 2, j);
  }

  /** Two matches starting at the same place end at the same place. */
  lemma CloseUnique(text: string, i: int, j1: int, j2: int)
    requires PlaceholderAt(text, i, j1) && PlaceholderAt(text, i, j2)
    ensures j1 == j2
  {
    PlaceholderClose(text, i, j1);
    PlaceholderClose(text, i, j2);
  }

  // ---------------------------------------------------------------------------
  // The scanner (the regular-expression engine's `FindAllStringSubmatch`)

  /** The match starting at `i`, if any, given by the position of its first
      closing brace. */
  function MatchAt(text: string, i: nat): (r: Option<nat>)
    requires i <= |text|
    ensures r.Some? ==> PlaceholderAt(text, i, r.value)
    ensures r.None? ==> forall j :: !PlaceholderAt(text, i, j)
  {
    assert forall j :: PlaceholderAt(text, i, j) ==> IndexFrom(text, "}", i + 2) == j by {
      forall j | PlaceholderAt(text, i, j) ensures IndexFrom(text, "}", i + 2) == j {
        PlaceholderClose(text, i, j);
      }
    }
    if i + 2 <= |text| && text[i] == '{' && text[i + 1] == '{' then
      var j := IndexFrom(text, "}", i + 2);
      if j >= i + 3 && j + 1 < |text| && text[j + 1] == '}' then
        assert text[j..j + 1][0] == text[j];
        assert forall k :: i + 2 <= k < j ==> text[k] != '}' by {
          forall k | i + 2 <= k < j ensures text[k] != '}' {
            assert !OccursAt(text, "}", k);
            assert text[k..k + 1] == [text[k]];
          }
        }
        Some(j)
      else None
    else None
  }

  /** Scanner step: no match at `i`, so the matches from `i + 1` on are the
      matches from `i` on. */
  lemma SkipMiss(text: string, i: nat, spans: seq<Span>)
    requires Leftmost(text, i + 1, spans)
    requires forall j :: !PlaceholderAt(text, i, j)
    ensures Leftmost(text, i, spans)
  {
  }

  /** The matches from position `i` on. */
  function ScanFrom(text: string, i: nat): (spans: seq<Span>)
    requires i <= |text|
    ensures Leftmost(text, i, spans)
    decreases |text| - i
  {
    if i == |text| then []
    else
      match MatchAt(text, i)
      case Some(j) =>
        var rest := ScanFrom(text, j + 2);
        assert ([Span(i, j)] + rest)[1..] == rest;
        [Span(i, j)] + rest
      case None =>
        var rest := ScanFrom(text, i + 1);
        SkipMiss(text, i, rest);
        rest
  }

  /** The earliest match at or after `from` is the first one listed. */
  lemma FirstMatch(text: string, from: int, spans: seq<Span>, p: int, q: int)
    requires Leftmost(text, from, spans)
    requires PlaceholderAt(text, p, q) && from <= p
    ensures spans != [] && spans[0].start <= p
  {
  }

  /** The leftmost-first description determines the matches: two lists that
      satisfy it are equal. */
  lemma {:induction false} LeftmostUnique(text: string, from: int, a: seq<Span>, b: seq<Span>)
    requires Leftmost(text, from, a) && Leftmost(text, from, b)
    ensures a == b
    decreases |a|
  {
    if b != [] {
      FirstMatch(text, from, a, b[0].start, b[0].close);
    }
    if a != [] {
      FirstMatch(text, from, b, a[0].start, a[0].close);
      CloseUnique(text, a[0].start, a[0].close, b[0].close);
      LeftmostUnique(text, a[0].close + 2, a[1..], b[1..]);
      assert a == [a[0]] + a[1..];
      assert b == [b[0]] + b[1..];
    }
  }

  /** Every listed span is a match, they come in left-to-right order and they
      do not overlap. */
  lemma {:induction false} LeftmostSpans(text: string, from: int, spans: seq<Span>)
    requires Leftmost(text, from, spans)
    ensures forall k :: 0 <= k < |spans| ==> from <= spans[k].start
    ensures forall k :: 0 <= k < |spans| ==> PlaceholderAt(text, spans[k].start, spans[k].close)
    ensures forall k :: 0 <= k < |spans| - 1 ==> spans[k].close + 2 <= spans[k + 1].start
    decreases |spans|
  {
    if spans != [] {
      var rest := spans[1..];
      LeftmostSpans(text, spans[0].close + 2, rest);
      assert forall k :: 1 <= k < |spans| ==> spans[k] == rest[k - 1];
    }
  }

  /** All matches of the placeholder expression in `text`, in order. */
  function Placeholders(text: string): (spans: seq<Span>)
    ensures Leftmost(text, 0, spans)
    ensures forall k :: 0 <= k < |spans| ==> SpanInText(text, spans[k])
  {
    var spans := ScanFrom(text, 0);
    LeftmostSpans(text, 0, spans);
    spans
  }

  /** What `Placeholders` returns are matches, left to right, none
      overlapping the next. */
  lemma PlaceholdersAreMatches(text: string)
    ensures var spans := Placeholders(text);
            && (forall k :: 0 <= k < |spans| ==> PlaceholderAt(text, spans[k].start, spans[k].close))
            && (forall k :: 0 <= k < |spans| - 1 ==> spans[k].close + 2 <= spans[k + 1].start)
  {
    LeftmostSpans(text, 0, Placeholders(text));
  }

  /** No match is missed: a match in the text that is not listed starts
      inside one that is (the expression's matches never overlap). */
  lemma PlaceholdersCover(text: string, i: int, j: int) returns (k: nat)
    requires PlaceholderAt(text, i, j)
    ensures k < |Placeholders(text)|
    ensures Placeholders(text)[k].start <= i < Placeholders(text)[k].close + 2
  {
    k := LeftmostCovers(text, 0, Placeholders(text), i, j);
  }

  /** Every match that starts at or after `from` lies within a listed one. */
  lemma {:induction false} LeftmostCovers(text: string, from: int, spans: seq<Span>, i: int, j: int) returns (k: nat)
    requires Leftmost(text, from, spans)
    requires PlaceholderAt(text, i, j) && from <= i
    ensures k < |spans| && spans[k].start <= i < spans[k].close + 2
    decreases |spans|
  {
    FirstMatch(text, from, spans, i, j);
    if i < spans[0].close + 2 {
      k := 0;
    } else {
      var k' := LeftmostCovers(text, spans[0].close + 2, spans[1..], i, j);
      k := k' + 1;
    }
  }

  // ---------------------------------------------------------------------------
  // From matches to variables

  /** The interior split on `|`, each piece trimmed (`strings.Split` then
      `strings.TrimSpace`). */
  function OptionsOf(interior: string): seq<string> {
    var parts := Split(interior, '|');
    seq(|parts|, i requires 0 <= i < |parts| => TrimSpace(parts[i]))
  }

  predicate SpanInText(text: string, m: Span) {
    m.start + 2 <= m.close && m.close + 2 <= |text|
  }

  /** The variable a match stands for. */
  function VariableAt(text: string, m: Span): Variable
    requires SpanInText(text, m)
  {
    Variable(text[m.start..m.close + 2], OptionsOf(text[m.start + 2..m.close]))
  }

  function VariablesOf(text: string, spans: seq<Span>): (vs: seq<Variable>)
    requires forall k :: 0 <= k < |spans| ==> SpanInText(text, spans[k])
    ensures |vs| == |spans|
  {
    seq(|spans|, k requires 0 <= k < |spans| => VariableAt(text, spans[k]))
  }

  function Raws(vs: seq<Variable>): (raws: seq<string>)
    ensures |raws| == |vs|
  {
    seq(|vs|, k requires 0 <= k < |vs| => vs[k].raw)
  }

  predicate Distinct<T(==)>(s: seq<T>) {
    forall i, j :: 0 <= i < j < |s| ==> s[i] != s[j]
  }

  /** The first position whose element already occurred earlier. */
  function FirstRepeat<T(==)>(s: seq<T>): (r: Option<nat>)
    ensures r.None? <==> Distinct(s)
    ensures r.Some? ==> r.value < |s| && s[r.value] in s[..r.value] && Distinct(s[..r.value])
    decreases |s|
  {
    if s == [] then None
    else
      var init := s[..|s| - 1];
      match FirstRepeat(init)
      case Some(k) =>
        assert init[..k] == s[..k];
        Some(k)
      case None =>
        if s[|s| - 1] in init then Some(|s| - 1) else None
  }

  /** An element that repeats an earlier one, with no repeat before it, is the
      first repeat. */
  lemma {:induction false} FirstRepeatAt<T>(s: seq<T>, k: nat)
    requires k < |s| && s[k] in s[..k] && Distinct(s[..k])
    ensures FirstRepeat(s) == Some(k)
    decreases |s|
  {
    var init := s[..|s| - 1];
    if k < |s| - 1 {
      assert init[..k] == s[..k];
      FirstRepeatAt(init, k);
    } else {
      assert init == s[..k];
    }
  }

  /** `ParseVariables` as a function of the text: the variables of all matches,
      in order, unless some raw match repeats an earlier one, in which case the
      first such repeat is reported. */
  function Extract(text: string): (r: Result<seq<Variable>, ExtractError>)
    ensures r.Ok? ==> |r.value| == |Placeholders(text)| && Distinct(Raws(r.value))
  {
    var vs := VariablesOf(text, Placeholders(text));
    match FirstRepeat(Raws(vs))
    case None => Ok(vs)
    case Some(l) => Err(DuplicateVariable(vs[l].raw))
  }

  /** Extraction succeeds exactly when no raw match repeats, and then yields
      one variable per match, in order. */
  lemma ExtractSucceeds(text: string)
    ensures var vs := VariablesOf(text, Placeholders(text));
            Extract(text).Ok? <==> Distinct(Raws(vs))
    ensures Extract(text).Ok? ==> Extract(text).value == VariablesOf(text, Placeholders(text))
  {
  }

  /** When the raw text of match `l` repeats an earlier one and no repeat
      comes before it, extraction reports that raw text. */
  lemma ExtractReportsFirstRepeat(text: string, l: nat)
    requires var raws := Raws(VariablesOf(text, Placeholders(text)));
             l < |raws| && raws[l] in raws[..l] && Distinct(raws[..l])
    ensures Extract(text) == Err(DuplicateVariable(Raws(VariablesOf(text, Placeholders(text)))[l]))
  {
    FirstRepeatAt(Raws(VariablesOf(text, Placeholders(text))), l);
  }

  /** `strings.Split` then `strings.TrimSpace` on each piece, in place. */
  method SplitOptions(interior: string) returns (options: seq<string>)
    ensures options == OptionsOf(interior)
  {
    var parts := Split(interior, '|');
    ghost var trimmed := OptionsOf(interior);
    var opts := new string[|parts|](i requires 0 <= i < |parts| => parts[i]);
    var i := 0;
    assert opts[..] == trimmed[..0] + parts[0..];
    while i < opts.Length
      invariant 0 <= i <= opts.Length == |trimmed| == |parts|
      invariant opts[..] == trimmed[..i] + parts[i..]
    {
      assert opts[i] == parts[i];
      ghost var before := opts[..];
      opts[i] := TrimSpace(opts[i]);
      assert opts[..] == before[i := trimmed[i]];
      ReplaceNext(trimmed, parts, i);
      i := i + 1;
    }
    assert trimmed[..i] == trimmed && parts[i..] == [];
    options := opts[..];
  }

  /** Replacing the first element of the unprocessed part moves the boundary by one. */
  lemma ReplaceNext<T>(done: seq<T>, todo: seq<T>, i: nat)
    requires i < |done| == |todo|
    ensures (done[..i] + todo[i..])[i := done[i]] == done[..i + 1] + todo[i + 1..]
  {
  }

  /** The variables of one more match. */
  lemma VariablesOfStep(text: string, spans: seq<Span>, k: nat)
    requires k < |spans| && forall p :: 0 <= p < |spans| ==> SpanInText(text, spans[p])
    ensures VariablesOf(text, spans[..k + 1]) == VariablesOf(text, spans[..k]) + [VariableAt(text, spans[k])]
    ensures Raws(VariablesOf(text, spans[..k + 1])) == Raws(VariablesOf(text, spans[..k])) + [VariableAt(text, spans[k]).raw]
  {
    var before := VariablesOf(text, spans[..k]);
    var after := VariablesOf(text, spans[..k + 1]);
    assert after == before + [VariableAt(text, spans[k])];
    assert Raws(after) == Raws(before) + [after[k].raw];
  }

  /** A sequence without repeats stays so when a new element is appended. */
  lemma DistinctSnoc<T>(s: seq<T>, x: T)
    requires Distinct(s) && x !in s
    ensures Distinct(s + [x])
  {
  }

  /** The raw texts of the first `k` matches. */
  lemma RawsPrefix(text: string, spans: seq<Span>, k: nat)
    requires k <= |spans| && forall p :: 0 <= p < |spans| ==> SpanInText(text, spans[p])
    ensures Raws(VariablesOf(text, spans))[..k] == Raws(VariablesOf(text, spans[..k]))
  {
  }

  /** `ParseVariables`: walks the matches, remembering the raw texts seen;
      a raw text seen before stops the walk with an error. */
  method ParseVariables(text: string) returns (r: Result<seq<Variable>, ExtractError>)
    ensures r == Extract(text)
  {
    var matches := Placeholders(text);
    var variables: seq<Variable> := [];
    var seen: set<string> := {};
    var k := 0;
    while k < |matches|
      invariant 0 <= k <= |matches|
      invariant variables == VariablesOf(text, matches[..k])
      invariant forall s :: s in seen <==> s in Raws(variables)
      invariant Distinct(Raws(variables))
    {
      var m := matches[k];
      var raw := text[m.start..m.close + 2];
      if raw in seen {
        ghost var raws := Raws(VariablesOf(text, matches));
        RawsPrefix(text, matches, k);
        assert raws[k] == raw;
        FirstRepeatAt(raws, k);
        return Err(DuplicateVariable(raw));
      }
      seen := seen + {raw};
      var options := SplitOptions(text[m.start + 2..m.close]);
      VariablesOfStep(text, matches, k);
      assert Variable(raw, options) == VariableAt(text, m);
      DistinctSnoc(Raws(variables), raw);
      variables := variables + [Variable(raw, options)];
      k := k + 1;
    }
    assert matches[..k] == matches;
    r := Ok(variables);
  }

  // ---------------------------------------------------------------------------
  // Properties

  /** A placeholder has one more option than its interior has pipes. */
  lemma OptionsCount(interior: string)
    ensures |OptionsOf(interior)| == multiset(interior)['|'] + 1
  {
    SplitCount(interior, '|');
  }

  /** Options written without pipes and without surrounding white space come
      back as written, in order. */
  lemma OptionsOfJoin(options: seq<string>)
    requires |options| >= 1
    requires forall k :: 0 <= k < |options| ==> '|' !in options[k]
    requires forall k :: 0 <= k < |options| ==>
               options[k] == [] || (!IsSpace(options[k][0]) && !IsSpace(options[k][|options[k]| - 1]))
    ensures OptionsOf(Join(options, '|')) == options
  {
    SplitJoin(options, '|');
    forall k | 0 <= k < |options| ensures TrimSpace(options[k]) == options[k] {
      TrimSpaceKeeps(options[k]);
    }
  }

  /** Each extracted variable is a whole match: `{{`, an interior without `}`,
      `}}`; its options are the trimmed pieces of that interior. */
  lemma VariableShape(text: string, k: nat)
    requires k < |Placeholders(text)|
    ensures var m := Placeholders(text)[k];
            var v := VariablesOf(text, Placeholders(text))[k];
            && |v.raw| >= 5
            && v.raw[..2] == "{{" && v.raw[|v.raw| - 2..] == "}}"
            && v.raw == "{{" + text[m.start + 2..m.close] + "}}"
            && '}' !in text[m.start + 2..m.close]
            && |v.options| == multiset(text[m.start + 2..m.close])['|'] + 1
  {
    PlaceholdersAreMatches(text);
    var m := Placeholders(text)[k];
    assert PlaceholderAt(text, m.start, m.close);
    VariableAtShape(text, m);
  }

  /** The shape of the variable of one match. */
  lemma VariableAtShape(text: string, m: Span)
    requires PlaceholderAt(text, m.start, m.close)
    ensures var v := VariableAt(text, m);
            && |v.raw| >= 5
            && v.raw[..2] == "{{" && v.raw[|v.raw| - 2..] == "}}"
            && v.raw == "{{" + text[m.start + 2..m.close] + "}}"
            && '}' !in text[m.start + 2..m.close]
            && |v.options| == multiset(text[m.start + 2..m.close])['|'] + 1
  {
    var interior := text[m.start + 2..m.close];
    assert forall c :: c in interior ==> c != '}';
    BracedSlice(text, m.start, m.close);
    OptionsCount(interior);
  }

  /** A match's text is its interior between the two pairs of braces. */
  lemma BracedSlice(text: string, i: int, j: int)
    requires 0 <= i && i + 2 <= j && j + 2 <= |text|
    requires text[i] == '{' && text[i + 1] == '{' && text[j] == '}' && text[j + 1] == '}'
    ensures text[i..j + 2] == "{{" + text[i + 2..j] + "}}"
  {
    var r := "{{" + text[i + 2..j] + "}}";
    forall k | 0 <= k < j + 2 - i
      ensures r[k] == text[i..j + 2][k]
    {
      if k >= 2 && k < j - i {
        assert r[k] == text[i + 2..j][k - 2];
      }
    }
  }

  /** Extraction yields no variables and no error exactly when the text holds
      no match, whatever braces it contains. */
  lemma ExtractNoPlaceholders(text: string)
    ensures Extract(text) == Ok([]) <==> Placeholders(text) == []
  {
    if Placeholders(text) == [] {
      assert VariablesOf(text, []) == [];
      assert Raws([]) == [];
    }
  }

  /** Text without `{` has no placeholders. */
  lemma ExtractWithoutBraces(text: string)
    requires forall i :: 0 <= i < |text| ==> text[i] != '{'
    ensures Extract(text) == Ok([])
  {
    assert Leftmost(text, 0, []);
    LeftmostUnique(text, 0, Placeholders(text), []);
    ExtractNoPlaceholders(text);
  }

  /** `{{}}` is not a placeholder: the interior needs a character. */
  lemma EmptyBracesIgnored()
    ensures Extract("{{}}") == Ok([])
  {
    assert Leftmost("{{}}", 0, []);
    LeftmostUnique("{{}}", 0, Placeholders("{{}}"), []);
  }

  /** The one match in `Process {{input|text}}`. */
  lemma InputOrTextMatches(text: string)
    requires text == "Process {{input|text}}"
    ensures Placeholders(text) == [Span(8, 20)]
  {
    assert forall i :: 0 <= i < 8 ==> text[i] != '{';
    assert PlaceholderAt(text, 8, 20);
    assert Leftmost(text, 22, []);
    assert Leftmost(text, 0, [Span(8, 20)]);
    LeftmostUnique(text, 0, Placeholders(text), [Span(8, 20)]);
  }

  /** Text with exactly one match yields its variable. */
  lemma ExtractOne(text: string, m: Span)
    requires |Placeholders(text)| == 1 && Placeholders(text)[0] == m
    ensures Extract(text) == Ok([VariableAt(text, m)])
  {
    var vs := [VariableAt(text, m)];
    assert VariablesOf(text, Placeholders(text)) == vs;
    assert Distinct(Raws(vs));
    ExtractSucceeds(text);
  }

  /** Text with exactly two matches of different raw text yields both
      variables, in order. */
  lemma ExtractTwo(text: string, m1: Span, m2: Span)
    requires |Placeholders(text)| == 2 && Placeholders(text)[0] == m1 && Placeholders(text)[1] == m2
    requires VariableAt(text, m1).raw != VariableAt(text, m2).raw
    ensures Extract(text) == Ok([VariableAt(text, m1), VariableAt(text, m2)])
  {
    var vs := [VariableAt(text, m1), VariableAt(text, m2)];
    assert VariablesOf(text, Placeholders(text)) == vs;
    assert Distinct(Raws(vs));
    ExtractSucceeds(text);
  }

  /** `Process {{input|text}}` declares one variable with the options `input`
      and `text`. */
  lemma ExtractInputOrText(text: string)
    requires text == "Process {{input|text}}"
    ensures Extract(text) == Ok([Variable("{{input|text}}", ["input", "text"])])
  {
    assert text[8..22] == "{{input|text}}";
    assert text[10..20] == "input|text" == Join(["input", "text"], '|');
    OptionsOfJoin(["input", "text"]);
    InputOrTextMatches(text);
    ExtractOne(text, Span(8, 20));
  }

  /** The two matches in `{{text}} {{text}}`. */
  lemma RepeatedTextMatches(text: string)
    requires text == "{{text}} {{text}}"
    ensures Placeholders(text) == [Span(0, 6), Span(9, 15)]
  {
    assert PlaceholderAt(text, 0, 6) && PlaceholderAt(text, 9, 15);
    assert Leftmost(text, 17, []);
    assert Leftmost(text, 8, [Span(9, 15)]);
    assert [Span(0, 6), Span(9, 15)][1..] == [Span(9, 15)];
    assert Leftmost(text, 0, [Span(0, 6), Span(9, 15)]);
    LeftmostUnique(text, 0, Placeholders(text), [Span(0, 6), Span(9, 15)]);
  }

  /** The same placeholder written twice is an error naming it. */
  lemma ExtractDuplicate(text: string)
    requires text == "{{text}} {{text}}"
    ensures Extract(text) == Err(DuplicateVariable("{{text}}"))
  {
    RepeatedTextMatches(text);
    assert text == "{{text}}" + " " + "{{text}}";
    assert text[0..8] == "{{text}}" && text[9..17] == "{{text}}";
    var raws := Raws(VariablesOf(text, [Span(0, 6), Span(9, 15)]));
    assert raws[0] == "{{text}}" && raws[1] == "{{text}}";
    assert raws[..1] == ["{{text}}"];
    ExtractReportsFirstRepeat(text, 1);
  }

  /** The two matches in `{{a}} {{ a }}`. */
  lemma SpacedTwinsMatches(text: string)
    requires text == "{{a}} {{ a }}"
    ensures Placeholders(text) == [Span(0, 3), Span(6, 11)]
  {
    assert PlaceholderAt(text, 0, 3) && PlaceholderAt(text, 6, 11);
    assert Leftmost(text, 13, []);
    assert Leftmost(text, 5, [Span(6, 11)]);
    assert [Span(0, 3), Span(6, 11)][1..] == [Span(6, 11)];
    assert Leftmost(text, 0, [Span(0, 3), Span(6, 11)]);
    LeftmostUnique(text, 0, Placeholders(text), [Span(0, 3), Span(6, 11)]);
  }

  /** White space around an option is not part of it. */
  lemma SpacedOption(interior: string)
    requires interior == " a "
    ensures OptionsOf(interior) == ["a"]
  {
    SplitJoin([interior], '|');
    assert TrimLeftSpace(interior) == "a ";
    assert TrimSpace(interior) == "a";
  }

  /** The variable of the first match in `{{a}} {{ a }}`. */
  lemma PlainTwin(text: string)
    requires text == "{{a}} {{ a }}"
    ensures VariableAt(text, Span(0, 3)) == Variable("{{a}}", ["a"])
  {
    var interior := text[2..3];
    assert interior == "a" == Join(["a"], '|');
    OptionsOfJoin(["a"]);
    assert text[0..5] == "{{a}}";
  }

  /** The variable of the second match in `{{a}} {{ a }}`. */
  lemma SpacedTwin(text: string)
    requires text == "{{a}} {{ a }}"
    ensures VariableAt(text, Span(6, 11)) == Variable("{{ a }}", ["a"])
  {
    var interior := text[8..11];
    assert interior == " a ";
    SpacedOption(interior);
    assert text[6..13] == "{{ a }}";
  }

  /** Duplicates are compared on the raw text: `{{a}}` and `{{ a }}` are two
      variables, each with the single option `a`. */
  lemma ExtractSpacedTwins(text: string)
    requires text == "{{a}} {{ a }}"
    ensures Extract(text) == Ok([Variable("{{a}}", ["a"]), Variable("{{ a }}", ["a"])])
  {
    SpacedTwinsMatches(text);
    PlainTwin(text);
    SpacedTwin(text);
    ExtractTwo(text, Span(0, 3), Span(6, 11));
  }
}
