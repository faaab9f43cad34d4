# gliik instruction core in Dafny

gliik is a command-line tool that keeps "instructions" (system prompts for a
language model) in a directory under the user's home. Each instruction has
YAML metadata (version, description, tags, language) and a prompt text with
`{{...}}` placeholders. When an instruction runs, each placeholder gets its
value from standard input, from a command-line flag, or from the file a flag
names.

This project models the text and bookkeeping core of that tool and proves
properties of the model:

- **Front matter** (`Frontmatter`). `ParseFrontmatter` splits
  `---<yaml>---<body>` into metadata and body. It looks for the first `---`
  and then the next one that does not overlap it. It returns three errors in a
  fixed order. The body loses its leading newlines. A rendered document reads
  back to the same metadata and body when the YAML codec is `LawfulFor` that metadata (below)
  and the body does not start with a newline.
- **Placeholders** (`Variables`).
  - The regular expression `\{\{([^}]+)\}\}` is stated directly: a match, and
    the leftmost-first list of non-overlapping matches. A scanner is proved to
    produce exactly that list.
  - `ParseVariables` is a loop over the matches. It splits each interior on
    `|` and trims the pieces in place in an array. It stops at the first raw
    match seen before.
- **Resolution** (`Resolvers`). `Resolver.Resolve` takes each variable's value
  from the first of its options that offers one.
  - Non-empty standard input is refused when no variable declares `input`.
  - A flag that names a file gives the file's contents.
  - An empty option name counts as unresolved.
  - The file system is a map from path to entry.
- **Versions** (`Versioning`).
  - `bumpPatch` is modelled with Go's `strings.Split`, `strconv.Atoi` and the
    wrap-around of a 64-bit `int`.
  - `SetVersion` gates on `^\d+\.\d+\.\d+$`. This is the X.Y.Z normal-version
    shape of section 2 of Semantic Versioning 2.0.0, without its rule against
    leading zeros.
  - `GetVersion`, `BumpVersion` and `SetVersion` read, change and write back
    the instruction file in an `InstructionsDir` object (`Store`).
- **Names and creation** (`Creation`). `ValidateName`, and `Create` up to the
  point where it starts the editor.
- **Configuration** (`Settings`). `Config.ValidateProvider`, the default
  configuration, and `Initialize` over the part of the home directory it
  touches.
- **Go's string functions** (`Strings`). `strings.Index`, `strings.TrimLeft`,
  `strings.TrimSpace`, `strings.Split`, `strconv.Atoi` and `%d`, with the
  laws the other modules use.

YAML encoding and decoding are parameters (`YamlCodec`). The ghost predicate
`Frontmatter.LawfulFor(yaml, m)` states what the round-trip lemmas assume of
them for the metadata `m` that is written, and only for it:

- the encoded text holds no `---`;
- it does not end in `-`;
- decoding a newline followed by it gives the metadata back.

Every error is a `Result`/`Outcome` value. An error therefore never carries a
partial metadata record, body, variable list or value map, just as the Go
functions return zero values with their errors. Errors are kinds with their
data (the raw placeholder, the option, the path), not the message text.

## Model

| member | source | states |
|---|---|---|
| Strings.IndexFrom | internal/instruction/frontmatter.go:17-30 | the result is -1 exactly when `pat` occurs nowhere at or after `from`; otherwise it is an occurrence with none before it |
| Strings.IndexFromFinds | internal/instruction/frontmatter.go:17-24 | an occurrence with no earlier one at or after `from` is the position the search returns |
| Strings.TrimLeftNewlines | internal/instruction/frontmatter.go:40 | the result is a suffix of the input, only `'\n'` characters were removed, and it does not start with `'\n'` |
| Strings.TrimSpace | internal/instruction/variables.go:36 | the result neither starts nor ends with white space |
| Strings.TrimSpaceSlice | internal/instruction/variables.go:36 | the trimmed text is the slice of the input after its leading white space, with only white space before and after it |
| Strings.TrimSpaceKeeps | internal/instruction/variables.go:36 | text without white space at either end is left unchanged |
| Strings.Split | internal/instruction/variables.go:34 | there is at least one part and no part holds the separator |
| Strings.JoinSplit | internal/instruction/version.go:124 | joining the parts back with the separator gives the input |
| Strings.SplitCount | internal/instruction/variables.go:34 | there is one more part than the text has separators |
| Strings.SplitJoin | internal/instruction/variables.go:34 | splitting parts joined with a separator they do not contain gives those parts back |
| Strings.DecimalDigits | internal/instruction/version.go:134 | the decimal form of `n` is digits whose value is `n`, with no leading zero |
| Strings.AtoiFormatInt | internal/instruction/version.go:129-134 | `Atoi` reads back every 64-bit integer that `%d` wrote |
| Strings.NoDotInFormatInt | internal/instruction/version.go:134 | the decimal form of an integer never contains `.` |
| Frontmatter.ParseFrontmatter | internal/instruction/frontmatter.go:13-50 | a returned body never starts with a newline |
| Frontmatter.ParseWithoutDelimiter | internal/instruction/frontmatter.go:17-20 | the start-delimiter error is returned exactly when `---` occurs nowhere |
| Frontmatter.ParseWithoutEndDelimiter | internal/instruction/frontmatter.go:23-27 | once the first delimiter is found, the end-delimiter error is returned exactly when no `---` starts at or after its end (delimiters never overlap) |
| Frontmatter.ParseWithDelimiters | internal/instruction/frontmatter.go:29-49 | with both delimiters found, the decoder sees exactly the text between them; its failure is the only error left; the body is everything after the second delimiter less its leading newlines |
| Frontmatter.ParseBetweenBody | internal/instruction/frontmatter.go:37-41 | the body is the rest of the text less its leading newlines, and empty when the second delimiter ends the text |
| Frontmatter.TrimNewlinesBeforeBody | internal/instruction/frontmatter.go:40 | removing the leading newlines of newlines followed by a body that does not start with one gives the body |
| Frontmatter.RenderedDelimiters | internal/instruction/frontmatter.go:17-30 | in `"---\n" + y + "---\n" + b`, with `y` free of `---` and not ending in `-`, the two written delimiters are the ones found |
| Frontmatter.RenderedParse | internal/instruction/frontmatter.go:17-49 | parsing a rendered document decodes `"\n" + y` and returns `b` less its leading newlines |
| Frontmatter.RenderRoundTrip | internal/instruction/version.go:67-72 | reading back the rewritten file gives the same metadata and the same body, for every body that does not start with a newline, when the codec is `LawfulFor` that metadata (its encoding holds no `---`, does not end in `-` and decodes back) |
| Frontmatter.LeadingNewlinesLost | internal/instruction/frontmatter.go:37-41 | blank lines written between the second delimiter and the body are not read back |
| Frontmatter.TrailingDashShiftsDelimiter | internal/instruction/frontmatter.go:23-24 | metadata text ending in `-` moves the second delimiter one character early, and a `-` leaks into the body |
| Frontmatter.NoDelimiterMeansMissingStart | internal/instruction/frontmatter.go:17-20 | text without `-` fails on the start delimiter, whatever the decoder would answer |
| Variables.PlaceholderClose | internal/instruction/variables.go:14 | a match ends at the first `}` after its opening braces |
| Variables.CloseUnique | internal/instruction/variables.go:14 | two matches that start at the same place end at the same place |
| Variables.MatchAt | internal/instruction/variables.go:14 | `Some(j)` exactly when `text[i..j+2]` is a match, `None` exactly when no match starts at `i` |
| Variables.ScanFrom | internal/instruction/variables.go:17 | the scanner returns the leftmost-first, non-overlapping matches from `i` on |
| Variables.LeftmostUnique | internal/instruction/variables.go:17 | the leftmost-first description determines the list of matches |
| Variables.LeftmostSpans | internal/instruction/variables.go:17 | every listed span is a match, after `from`, and each ends before the next begins |
| Variables.Placeholders | internal/instruction/variables.go:17 | the matches of the whole text are its leftmost-first matches and lie inside the text |
| Variables.PlaceholdersAreMatches | internal/instruction/variables.go:17 | the listed spans are matches, in left-to-right order, without overlap |
| Variables.PlaceholdersCover | internal/instruction/variables.go:17 | no match is missed: any match in the text starts inside a listed one |
| Variables.FirstRepeat | internal/instruction/variables.go:19-31 | `None` exactly when the raw texts are distinct; otherwise the first position that repeats an earlier one |
| Variables.FirstRepeatAt | internal/instruction/variables.go:29-31 | an element that repeats an earlier one, with no repeat before it, is the one reported |
| Variables.Extract | internal/instruction/variables.go:16-46 | on success there is one variable per match and the raw texts are pairwise distinct |
| Variables.ExtractSucceeds | internal/instruction/variables.go:16-46 | extraction succeeds exactly when no raw match repeats, and then yields the variables of all matches in order |
| Variables.ExtractReportsFirstRepeat | internal/instruction/variables.go:29-31 | the error names the raw text of the first match that repeats an earlier one |
| Variables.SplitOptions | internal/instruction/variables.go:34-37 | the in-place array loop yields the interior split at its pipe characters, every piece trimmed |
| Variables.ParseVariables | internal/instruction/variables.go:16-46 | the loop with its `seen` set returns exactly `Extract(text)` |
| Variables.OptionsCount | internal/instruction/variables.go:34 | a placeholder has one more option than its interior has pipes |
| Variables.OptionsOfJoin | internal/instruction/variables.go:34-37 | options written without pipes or surrounding white space come back as written, in order |
| Variables.VariableShape | internal/instruction/variables.go:26-27 | each raw text is `{{` + an interior without `}` + `}}`, at least five characters long; its option count is the interior's pipes plus one |
| Variables.VariableAtShape | internal/instruction/variables.go:26-27 | the same shape for the variable of any one match |
| Variables.ExtractNoPlaceholders | internal/instruction/variables.go:17-45 | extraction yields no variables and no error exactly when the text holds no match, even if it holds braces |
| Variables.ExtractWithoutBraces | internal/instruction/variables.go:17-45 | text without `{`, the empty text included, yields no variables and no error |
| Variables.EmptyBracesIgnored | internal/instruction/variables.go:14 | `{{}}` is not a placeholder |
| Variables.ExtractOne | internal/instruction/variables.go:16-46 | text with exactly one match yields its variable |
| Variables.ExtractTwo | internal/instruction/variables.go:16-46 | text with two matches of different raw text yields both variables, in order |
| Variables.ExtractInputOrText | internal/instruction/variables.go:16-46 | `Process {{input`, pipe, `text}}` yields one variable, with the options `input` and `text` in that order |
| Variables.ExtractDuplicate | internal/instruction/variables.go:29-31 | `{{text}} {{text}}` fails naming `{{text}}` |
| Variables.SpacedOption | internal/instruction/variables.go:36 | the white space around an option is not part of it |
| Variables.ExtractSpacedTwins | internal/instruction/variables.go:29-32 | `{{a}}` and `{{ a }}` are two variables, each with the single option `a` |
| Resolvers.Resolver.ValueOf | internal/instruction/resolver.go:39-57 | a read failure happens exactly when a flag (not standard input) names a file that cannot be read; a value is always for the option asked |
| Resolvers.Resolver.PickFrom | internal/instruction/resolver.go:38-58 | nothing is picked only when no option offers a value |
| Resolvers.Resolver.HasInputOption | internal/instruction/resolver.go:15-26 | the nested loop with `break`s finds `input` exactly when some variable declares it |
| Resolvers.Resolver.TryOptions | internal/instruction/resolver.go:38-58 | the inner loop returns the pick of the policy function |
| Resolvers.Resolver.Resolve | internal/instruction/resolver.go:14-83 | the method, which fills the map one variable at a time, returns exactly `Resolution(fs)` |
| Resolvers.OptionsHelp | internal/instruction/resolver.go:64-74 | the loop lists one hint per option, in order |
| Resolvers.HintFor | internal/instruction/resolver.go:66-70 | `input` is listed as standard input; every other option is listed as its flag |
| Resolvers.Missing | internal/instruction/resolver.go:60-76 | a lone option gives the "required" error naming it; several give "needs one of" whose hint i is the stdin hint exactly when option i is `input`, and the flag hint naming option i otherwise |
| Resolvers.PickFirst | internal/instruction/resolver.go:38-58 | the first option that offers a value decides, and later options are never looked at |
| Resolvers.PickNone | internal/instruction/resolver.go:38-58 | nothing is picked exactly when no option offers a value |
| Resolvers.InputTakesStdin | internal/instruction/resolver.go:39-43 | with non-empty standard input, `input` takes it, even when an `input` flag is also given |
| Resolvers.FlagValue | internal/instruction/resolver.go:45-57 | a flag naming a readable file gives the contents; an unreadable one aborts; a directory or a missing path gives the flag's own text |
| Resolvers.ResolveFromNeverRefusesStdin | internal/instruction/resolver.go:28-30 | only the pre-check refuses standard input |
| Resolvers.StdinRefused | internal/instruction/resolver.go:15-30 | standard input is refused exactly when it is not empty and no variable declares `input` |
| Resolvers.ResolveFromOk | internal/instruction/resolver.go:34-80 | the walk succeeds exactly when every variable settles |
| Resolvers.ResolveFromKeys | internal/instruction/resolver.go:79 | a successful walk adds exactly the variables' raw texts as keys |
| Resolvers.ResolveFromValues | internal/instruction/resolver.go:79 | with distinct raw texts, each variable's key holds the value it settled on |
| Resolvers.PreservedOutsideRaws | internal/instruction/resolver.go:79 | a key that no variable writes keeps its earlier value |
| Resolvers.FirstFailureDecides | internal/instruction/resolver.go:34-80 | the first variable in list order that fails decides the error |
| Resolvers.ResolutionOk | internal/instruction/resolver.go:14-83 | resolution succeeds exactly when the pre-check passes and every variable settles; the keys are then exactly the raw texts |
| Resolvers.SettleOk | internal/instruction/resolver.go:38-79 | a variable settles exactly when its first offering option has a non-empty name and its read succeeds; its value is that option's value |
| Resolvers.StdinBeatsFlag | internal/instruction/resolver.go:38-43 | for a variable with the options `input` then `text`, standard input wins over a `--text` flag |
| Resolvers.EmptyOptionUnresolved | internal/instruction/resolver.go:55-60 | the empty middle option of a variable with the options `a`, empty, `b` counts as unresolved even with a flag of the empty name, and `b` is never tried |
| Resolvers.LoneOptionRequired | internal/instruction/resolver.go:61-62 | a lone option that nothing supplies is reported as required |
| Resolvers.HelpLineIsOneLine | internal/instruction/resolver.go:66-70 | a help line holds no line break unless the option name does |
| Resolvers.HelpTextIsOneLine | internal/instruction/resolver.go:64-74 | as written, the help list has a single line break, at its very end |
| Resolvers.HelpTextRunsTogether | internal/instruction/resolver.go:71-73 | as written, the two entries for the options `input` and `text` run together on one line |
| Resolvers.HelpTextLines | internal/instruction/resolver.go:64-74 | the corrected help list splits at its line breaks into one line per option |
| Resolvers.NeedsOneOfMessage | internal/instruction/resolver.go:64-75 | the message is the fixed head followed by the help list as the loop builds it; with newline-free options the list after the head has one line break, at its very end |
| Resolvers.IntendedNeedsOneOfMessage | internal/instruction/resolver.go:64-75 | the corrected message: the same head followed by the intended help list, which splits into one line per option |
| Store.InstructionsDir.MkdirAll | internal/instruction/create.go:37-39 | adds the entry and leaves the files alone |
| Store.InstructionsDir.WriteFile | internal/instruction/create.go:41-44 | creates or replaces one file and changes nothing else |
| Creation.ValidateName | internal/instruction/create.go:16-24 | the empty name gets its own error; a non-empty name passes exactly when every character is in `[a-zA-Z0-9_]` |
| Creation.ForeignCharRefused | internal/instruction/create.go:20-22 | one character outside the class anywhere refuses the name |
| Creation.TrailingNewlineRefused | internal/instruction/create.go:14 | a valid name followed by a line break is refused (`$` matches only at the end of the text) |
| Creation.ValidNameIsPathElement | internal/instruction/create.go:31 | a valid name holds no `/`, `\` or `.`, so it stays one path element |
| Creation.InitialMeta | internal/instruction/create.go:46-49 | a new instruction starts at version 0.1.0 with the given description, no tags and no language |
| Creation.Create | internal/instruction/create.go:26-59 | checks the name before any change and refuses an existing entry; on success adds the entry with an empty `system.txt` and the initial `meta.yaml`; nothing changes on failure |
| Versioning.AddOne64 | internal/instruction/version.go:134 | `patch + 1` on a 64-bit `int`: one more below the maximum, the minimum at the maximum |
| Versioning.SplitThree | internal/instruction/version.go:124 | text with exactly two dots splits into the three runs between them |
| Versioning.BumpPatchFormatError | internal/instruction/version.go:124-127 | the format error is raised exactly when the version does not have exactly two dots |
| Versioning.BumpPatchOf | internal/instruction/version.go:123-135 | for `a.b.c`: the patch error when `Atoi` refuses `c`; otherwise `a` and `b` verbatim and `c` replaced by its value plus one in decimal |
| Versioning.BumpPatchReparse | internal/instruction/version.go:134 | a bumped version splits into the same first two parts and a third that reads as the old patch plus one |
| Versioning.MatchesSemverIff | internal/instruction/version.go:15 | the gate accepts exactly three runs of ASCII digits joined by dots |
| Versioning.BumpKeepsSemver | internal/instruction/version.go:123-135 | bumping an `X.Y.Z` version below the 64-bit maximum gives `X.Y.(Z+1)` without leading zeros, again `X.Y.Z` |
| Versioning.BumpThreeTimes | internal/instruction/version.go:123-135 | three bumps from `X.Y.0` give `X.Y.1`, `X.Y.2` and `X.Y.3` |
| Versioning.BumpIgnoresLeadingParts | internal/instruction/version.go:124-134 | the bump does not apply the `X.Y.Z` gate: `a.b.3` becomes `a.b.4` |
| Versioning.BumpDropsLeadingZeros | internal/instruction/version.go:129-134 | `1.0.007` becomes `1.0.8` |
| Versioning.BumpReadsPlus | internal/instruction/version.go:129 | `1.0.+5` becomes `1.0.6` |
| Versioning.BumpReadsMinus | internal/instruction/version.go:129 | `1.0.-1` becomes `1.0.0` |
| Versioning.BumpRejectsTwoParts | internal/instruction/version.go:124-127 | `1.0` is a format error |
| Versioning.BumpRejectsFourParts | internal/instruction/version.go:124-127 | `1.0.0.0` is a format error |
| Versioning.BumpRejectsPatch | internal/instruction/version.go:129-132 | `1.0.x` and `1.0.` are patch errors naming the third part |
| Versioning.BumpWraps | internal/instruction/version.go:134 | at the 64-bit maximum the patch wraps to the minimum, which no longer passes the `X.Y.Z` gate |
| Versioning.InstructionPath | internal/instruction/version.go:43-44 | the file is `instruction.md` inside the instruction's entry |
| Versioning.UpdateMeta | internal/instruction/version.go:62-65 | sets the version; replaces the description only when a non-empty one is given; keeps tags and language |
| Versioning.BumpReadsBack | internal/instruction/version.go:38-79 | a bump writes a file that reads back as the updated metadata and the same body, when the codec is `LawfulFor` the updated metadata; `GetVersion` then answers the bumped version |
| Versioning.SetReadsBack | internal/instruction/version.go:81-121 | a set writes a file that reads back with the given `X.Y.Z` version and the same body, when the codec is `LawfulFor` the updated metadata, and returns the previous version |
| Versioning.SetRejectsNonSemver | internal/instruction/version.go:86-88 | a version outside `X.Y.Z` is refused whatever the file holds, even when it cannot be read |
| Versioning.SetAcceptsAnyVersion | internal/instruction/version.go:103-120 | there is no ordering check: any `X.Y.Z` version replaces a readable file's version |
| Versioning.ReadVersion | internal/instruction/version.go:17-36 | name check, read, parse, in that order, and the metadata's version |
| Versioning.BumpVersion | internal/instruction/version.go:38-79 | returns the old and the bumped version and writes only the instruction file; writes nothing on failure |
| Versioning.SetVersion | internal/instruction/version.go:81-121 | gates the version before reading; returns the old version and writes only the instruction file; writes nothing on failure |
| Settings.ValidateProvider | internal/config/init.go:33-39 | passes exactly for `anthropic` and `ollama`; the error quotes the value |
| Settings.ProviderNamesAreExact | internal/config/init.go:35-36 | the empty name, case variants and other providers are refused |
| Settings.DefaultConfig | internal/config/init.go:53-65 | the default configuration passes the provider check, uses Anthropic, has the Anthropic model equal to the default model, and keeps the directory given |
| Settings.Home.MkdirAll | internal/config/init.go:49 | adds the directory and leaves the files alone |
| Settings.Home.WriteFile | internal/config/init.go:72 | creates or replaces one file and changes nothing else |
| Settings.Initialize | internal/config/init.go:41-82 | refuses before any change when the config file exists; otherwise creates `.gliik` and `.gliik/instructions` and writes the encoded default configuration |

## Left out

- The LLM providers (internal/provider), the command-line layer (cmd),
  listing and loading (internal/instruction/list.go, load.go) and
  internal/config/config.go are not part of this model. They are network
  calls, command wiring and directory walks.
- YAML encoding and decoding are parameters, constrained only by
  `Frontmatter.LawfulFor`. Marshal errors are not modelled.
- The file system is an abstraction defined by fiat: the map
  `Resolvers.FileSystem` with `Resolvers.IsFile` and `Resolvers.ReadFile`,
  and the classes `Store.InstructionsDir` (`ReadFile`) and `Settings.Home`
  (`Exists`). Their reads are plain lookups and state nothing about the
  source; the members that use them (`Resolvers.FlagValue`,
  `Versioning.ReadVersion`, `Settings.Initialize`) carry the properties.
- In `Store` and `Settings.Home`, file-system failures other than a missing
  file are not modelled. (`Resolvers.Entry.RegularFile(None)` does model an
  existing file that cannot be read.) `MkdirAll` and `WriteFile` are taken to succeed in `Create`, `BumpVersion`,
  `SetVersion` and `Initialize`. A failed read is one error kind.
- Store.InstructionsDir.WriteFile: requires the entry to exist, because
  writes are taken to succeed. Every caller writes into an entry that exists.
- Creation.Create: stops before the editor is started (internal/instruction/create.go:61-73).
  Running an external program is not modelled.
- The home directory is not looked up. Paths are relative to it: `.gliik`,
  `.gliik/config.yaml`, `.gliik/instructions` (internal/config/paths.go).
  `GetGliikHome` answering `""` when there is no home directory is not modelled.
- Versioning.ReadVersion and `Versioning.GetVersion`: the instructions
  directory is an explicit object, and the file read is an argument of the
  specification functions.
- The directory layout is inconsistent, and the model follows the code as written:
  - `Create` writes `system.txt` and `meta.yaml`.
  - The version commands read and write `instruction.md`.
- `ValidateTags`, `ValidateLanguageCode` and the four-argument `Create`
  called from the tests and the command layer are not part of this model.
  Their rules are not in the modelled code.
- Error messages are error kinds carrying their data (raw placeholder,
  option, path, version). Only the message of a "needs one of" error and its
  help list are modelled as text, because they show the finding below.
- `Strings.TrimSpace` strips Go's full `unicode.IsSpace` set, as
  `strings.TrimSpace` does, not only ASCII white space.
- Strings are sequences of Unicode code points. Go strings are UTF-8 bytes,
  so indices and invalid UTF-8 are not modelled.
- Regular expressions are not interpreted. The three patterns are stated as
  the languages they match: the placeholder pattern (`Variables.PlaceholderAt`),
  the version pattern (`Versioning.IsSemver`) and `validNameRegex` of
  internal/instruction/create.go:14 (`Creation.IsNameChar`, `Creation.ValidateName`).
- Frontmatter.LawfulFor: yaml.v3 writes a description or a tag that contains
  `---` as it is, so `NoDelimiter` fails for such metadata. The read-back
  lemmas (`Frontmatter.RenderRoundTrip`, `Versioning.BumpReadsBack`,
  `Versioning.SetReadsBack`) require `LawfulFor` only of the metadata they
  write, and say nothing about metadata holding `---`; after a bump or a set
  the source would find its end delimiter inside the description.

## Findings

| source | as written | input that shows it | evidently intended | confidence | as-written member | corrected member |
|---|---|---|---|---|---|---|
| internal/instruction/resolver.go:71-73 | every help line's newline is cut off except the last one, so all entries of the "needs one of" list run together on one line | a variable with the options `input` and `text`, given neither standard input nor flags: both entries end up on one line | one entry per line, with no line break after the last | not executed | Resolvers.HelpTextRunsTogether | Resolvers.HelpTextLines |
