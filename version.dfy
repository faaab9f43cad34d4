/** Instruction versions: the patch bump, the `X.Y.Z` gate of `SetVersion`,
    and the read-modify-write of the instruction file done by `GetVersion`,
    `BumpVersion` and `SetVersion` (internal/instruction/version.go). */
module Versioning {
  import opened Wrappers
  import opened Strings
  import opened Frontmatter
  import opened Store
  import opened Creation

  // ---------------------------------------------------------------------------
  // The patch bump

  datatype VersionError = InvalidFormat(version: string) | InvalidPatch(patch: string)

  const TwoTo64: int := 0x1_0000_0000_0000_0000

  /** `patch + 1` on Go's 64-bit `int`: two's-complement wrap-around. */
  function AddOne64(n: int): (r: int)
    requires MinInt64 <= n <= MaxInt64
    ensures MinInt64 <= r <= MaxInt64
    ensures n < MaxInt64 ==> r == n + 1
    ensures n == MaxInt64 ==> r == MinInt64
  {
    (n + 1 - MinInt64) % TwoTo64 + MinInt64
  }

  /** `bumpPatch`: split on `.`, demand exactly three parts, read the third
      with `strconv.Atoi` and write it back one higher. The first two parts
      are not looked at. */
  function BumpPatch(version: string): Result<string, VersionError> {
    var parts := Split(version, '.');
    if |parts| != 3 then Err(InvalidFormat(version))
    else
      match Atoi(parts[2])
      case None => Err(InvalidPatch(parts[2]))
      case Some(patch) => Ok(parts[0] + "." + parts[1] + "." + FormatInt(AddOne64(patch)))
  }

  /** Three parts joined with dots. */
  lemma JoinThree(a: string, b: string, c: string)
    ensures Join([a, b, c], '.') == a + "." + b + "." + c
  {
    assert [a, b, c][1..] == [b, c];
    assert [b, c][1..] == [c];
    assert Join([b, c], '.') == b + ['.'] + c;
    assert Join([a, b, c], '.') == a + ['.'] + (b + ['.'] + c);
  }

  /** Text with exactly two dots splits into the three runs between them. */
  lemma SplitThree(a: string, b: string, c: string)
    requires '.' !in a && '.' !in b && '.' !in c
    ensures Split(a + "." + b + "." + c, '.') == [a, b, c]
  {
    JoinThree(a, b, c);
    SplitJoin([a, b, c], '.');
  }

  /** Text that splits into three parts is those parts joined with dots. */
  lemma ThreeParts(v: string)
    requires |Split(v, '.')| == 3
    ensures var p := Split(v, '.'); v == p[0] + "." + p[1] + "." + p[2]
  {
    var p := Split(v, '.');
    JoinSplit(v, '.');
    assert p == [p[0], p[1], p[2]];
    JoinThree(p[0], p[1], p[2]);
  }

  /** The format error is raised exactly for versions without exactly two dots. */
  lemma BumpPatchFormatError(version: string)
    ensures BumpPatch(version) == Err(InvalidFormat(version)) <==> multiset(version)['.'] != 2
  {
    SplitCount(version, '.');
  }

  /** The bump of `a.b.c`: the patch error when `c` is not an `Atoi` integer,
      otherwise `a` and `b` kept verbatim and `c` replaced by the decimal
      form of its value plus one. */
  lemma BumpPatchOf(a: string, b: string, c: string)
    requires '.' !in a && '.' !in b && '.' !in c
    ensures Atoi(c).None? ==> BumpPatch(a + "." + b + "." + c) == Err(InvalidPatch(c))
    ensures Atoi(c).Some? ==>
      BumpPatch(a + "." + b + "." + c) == Ok(a + "." + b + "." + FormatInt(AddOne64(Atoi(c).value)))
  {
    SplitThree(a, b, c);
  }

  /** Reading a bumped version back: the same first two parts, and a third
      part that `Atoi` reads as the old patch plus one. */
  lemma BumpPatchReparse(version: string)
    requires BumpPatch(version).Ok?
    ensures var old3 := Split(version, '.');
            var new3 := Split(BumpPatch(version).value, '.');
            && |new3| == 3 && new3[0] == old3[0] && new3[1] == old3[1]
            && Atoi(old3[2]).Some?
            && Atoi(new3[2]) == Some(AddOne64(Atoi(old3[2]).value))
  {
    var p := Split(version, '.');
    var n := AddOne64(Atoi(p[2]).value);
    NoDotInFormatInt(n);
    SplitThree(p[0], p[1], FormatInt(n));
    AtoiFormatInt(n);
  }

  // ---------------------------------------------------------------------------
  // The `X.Y.Z` gate

  /** The language of `^\d+\.\d+\.\d+$`: three runs of ASCII digits joined by
      dots, and nothing else (Go's `$` matches only at the end of the text). */
  ghost predicate IsSemver(v: string) {
    exists a: string, b: string, c: string ::
      IsDigits(a) && IsDigits(b) && IsDigits(c) && v == a + "." + b + "." + c
  }

  /** `semverRegex.MatchString`. */
  predicate MatchesSemver(v: string) {
    var parts := Split(v, '.');
    |parts| == 3 && IsDigits(parts[0]) && IsDigits(parts[1]) && IsDigits(parts[2])
  }

  lemma DigitsHaveNoDot(s: string)
    requires IsDigits(s)
    ensures '.' !in s
  {
    assert forall i :: 0 <= i < |s| ==> IsDigit(s[i]);
  }

  /** The matcher accepts exactly the language of the pattern. */
  lemma MatchesSemverIff(v: string)
    ensures MatchesSemver(v) <==> IsSemver(v)
  {
    if MatchesSemver(v) {
      var p := Split(v, '.');
      ThreeParts(v);
      assert IsDigits(p[0]) && IsDigits(p[1]) && IsDigits(p[2]) && v == p[0] + "." + p[1] + "." + p[2];
    }
    if IsSemver(v) {
      var a: string, b: string, c: string :|
        IsDigits(a) && IsDigits(b) && IsDigits(c) && v == a + "." + b + "." + c;
      DigitsHaveNoDot(a);
      DigitsHaveNoDot(b);
      DigitsHaveNoDot(c);
      SplitThree(a, b, c);
    }
  }

  /** `Atoi` reads a run of digits as its value when that fits in 64 bits. */
  lemma AtoiDigits(s: string)
    requires IsDigits(s) && DigitsValue(s) <= MaxInt64
    ensures Atoi(s) == Some(DigitsValue(s))
  {
    assert IsDigit(s[0]);
  }

  /** Bumping an `X.Y.Z` version whose patch is below the 64-bit maximum gives
      an `X.Y.Z` version with the same `X` and `Y` and the patch one higher,
      written without leading zeros. */
  lemma BumpKeepsSemver(a: string, b: string, c: string)
    requires IsDigits(a) && IsDigits(b) && IsDigits(c) && DigitsValue(c) < MaxInt64
    ensures BumpPatch(a + "." + b + "." + c) == Ok(a + "." + b + "." + DecimalDigits(DigitsValue(c) + 1))
    ensures IsSemver(a + "." + b + "." + DecimalDigits(DigitsValue(c) + 1))
  {
    DigitsHaveNoDot(a);
    DigitsHaveNoDot(b);
    DigitsHaveNoDot(c);
    AtoiDigits(c);
    BumpPatchOf(a, b, c);
    var d := DecimalDigits(DigitsValue(c) + 1);
    assert IsDigits(a) && IsDigits(b) && IsDigits(d);
  }

  /** One bump of `a.b.c` where `c` reads as `n`; stated for the examples below. */
  lemma BumpExample(v: string, a: string, b: string, c: string, n: int, w: string)
    requires '.' !in a && '.' !in b && '.' !in c && v == a + "." + b + "." + c
    requires Atoi(c) == Some(n) && n < MaxInt64
    requires w == a + "." + b + "." + FormatInt(n + 1)
    ensures BumpPatch(v) == Ok(w)
  {
    BumpPatchOf(a, b, c);
  }

  /** A one-digit patch below 9 goes up by one digit. */
  lemma BumpDigit(a: string, b: string, c: string, w: string, d: nat)
    requires '.' !in a && '.' !in b && d < 9
    requires c == [DigitChar(d)] && w == [DigitChar(d + 1)]
    ensures BumpPatch(a + "." + b + "." + c) == Ok(a + "." + b + "." + w)
  {
    assert c[..0] == [];
    assert DigitsValue(c) == d;
    assert FormatInt(d + 1) == w;
    BumpExample(a + "." + b + "." + c, a, b, c, d, a + "." + b + "." + w);
  }

  /** Three successive bumps from X.Y.0 give X.Y.1, X.Y.2 and X.Y.3. */
  lemma BumpThreeTimes(a: string, b: string)
    requires '.' !in a && '.' !in b
    ensures BumpPatch(a + "." + b + "." + "0") == Ok(a + "." + b + "." + "1")
    ensures BumpPatch(a + "." + b + "." + "1") == Ok(a + "." + b + "." + "2")
    ensures BumpPatch(a + "." + b + "." + "2") == Ok(a + "." + b + "." + "3")
  {
    BumpDigit(a, b, "0", "1", 0);
    BumpDigit(a, b, "1", "2", 1);
    BumpDigit(a, b, "2", "3", 2);
  }

  /** The bump does not check the `X.Y.Z` shape: non-numeric leading parts
      are carried over. */
  lemma BumpIgnoresLeadingParts(v: string, w: string)
    requires v == "a.b.3" && w == "a.b.4"
    ensures BumpPatch(v) == Ok(w) && !MatchesSemver(v)
  {
    BumpExample(v, "a", "b", "3", 3, w);
    SplitThree("a", "b", "3");
  }

  /** Leading zeros in the patch are accepted and dropped. */
  lemma BumpDropsLeadingZeros(v: string, w: string)
    requires v == "1.0.007" && w == "1.0.8"
    ensures BumpPatch(v) == Ok(w)
  {
    var c := "007";
    assert c[..2] == "00" && c[..2][..1] == "0" && c[..2][..1][..0] == "";
    assert DigitsValue("0") == 0;
    assert DigitsValue("00") == 0;
    assert DigitsValue(c) == DigitsValue("00") * 10 + DigitValue('7') == 7;
    assert IsDigits(c);
    BumpExample(v, "1", "0", c, 7, w);
  }

  /** A signed patch is accepted, as `Atoi` reads a leading `+` or `-`: `+5` bumps to `6`. */
  lemma BumpReadsPlus(v: string, w: string)
    requires v == "1.0.+5" && w == "1.0.6"
    ensures BumpPatch(v) == Ok(w)
  {
    assert "+5"[1..] == "5" && "5"[..0] == "";
    assert DigitsValue("5") == 5;
    BumpExample(v, "1", "0", "+5", 5, w);
  }

  /** A negative patch is accepted too: `-1` bumps to `0`. */
  lemma BumpReadsMinus(v: string, w: string)
    requires v == "1.0.-1" && w == "1.0.0"
    ensures BumpPatch(v) == Ok(w)
  {
    assert "-1"[1..] == "1" && "1"[..0] == "";
    assert DigitsValue("1") == 1;
    BumpExample(v, "1", "0", "-1", -1, w);
  }

  /** Too few dots is a format error. */
  lemma BumpRejectsTwoParts(v: string)
    requires v == "1.0"
    ensures BumpPatch(v) == Err(InvalidFormat(v))
  {
    var parts := ["1", "0"];
    assert parts[1..] == ["0"];
    assert Join(parts, '.') == v;
    SplitJoin(parts, '.');
  }

  /** Too many dots is a format error too. */
  lemma BumpRejectsFourParts(v: string)
    requires v == "1.0.0.0"
    ensures BumpPatch(v) == Err(InvalidFormat(v))
  {
    var parts := ["1", "0", "0", "0"];
    assert parts[1..] == ["0", "0", "0"];
    JoinThree("0", "0", "0");
    assert Join(parts, '.') == v;
    SplitJoin(parts, '.');
  }

  /** A patch `Atoi` refuses is a patch error naming the third part. */
  lemma BumpRejectsPatch(v1: string, v2: string)
    requires v1 == "1.0.x" && v2 == "1.0."
    ensures BumpPatch(v1) == Err(InvalidPatch("x"))
    ensures BumpPatch(v2) == Err(InvalidPatch(""))
  {
    assert v1 == "1" + "." + "0" + "." + "x";
    BumpPatchOf("1", "0", "x");
    assert v2 == "1" + "." + "0" + "." + "";
    BumpPatchOf("1", "0", "");
  }

  /** At the 64-bit maximum the patch wraps to the minimum, and the result is
      no longer an `X.Y.Z` version. */
  lemma BumpWraps(a: string, b: string, max: int, min: int)
    requires '.' !in a && '.' !in b
    requires max == MaxInt64 && min == MinInt64
    ensures BumpPatch(a + "." + b + "." + FormatInt(max)) == Ok(a + "." + b + "." + FormatInt(min))
    ensures !MatchesSemver(a + "." + b + "." + FormatInt(min))
  {
    NoDotInFormatInt(max);
    AtoiFormatInt(max);
    BumpPatchOf(a, b, FormatInt(max));
    NoDotInFormatInt(min);
    SplitThree(a, b, FormatInt(min));
    assert FormatInt(min)[0] == '-';
  }

  // ---------------------------------------------------------------------------
  // Reading and rewriting the instruction file

  /** Why `GetVersion`, `BumpVersion` or `SetVersion` gave up. */
  datatype CommandError =
    | BadName(nameError: NameError)
    | NotSemver(version: string)
    | ReadFailed
    | ParseFailed(parseError: FrontmatterError)
    | BadVersion(versionError: VersionError)

  const InstructionFile: string := "instruction.md"

  /** `filepath.Join(config.GetInstructionsDir(), name, "instruction.md")`. */
  function InstructionPath(name: string): (p: Path)
    ensures p.dir == name && p.file == InstructionFile
  {
    Path(name, InstructionFile)
  }

  /** The metadata change of a bump or a set: the new version, and the new
      description only when one is given; tags and language are kept. */
  function UpdateMeta(meta: Meta, version: string, description: string): (m: Meta)
    ensures m.version == version
    ensures description != "" ==> m.description == description
    ensures description == "" ==> m.description == meta.description
    ensures m.tags == meta.tags && m.lang == meta.lang
  {
    var m := meta.(version := version);
    if description != "" then m.(description := description) else m
  }

  /** `GetVersion`, given what reading the instruction file gave (`None` when
      the read failed): the name check, then the version in the front matter. */
  function GetVersion(name: string, file: Option<string>, yaml: YamlCodec): Result<string, CommandError> {
    if ValidateName(name).Fail? then Err(BadName(ValidateName(name).error))
    else if file.None? then Err(ReadFailed)
    else
      match ParseFrontmatter(file.value, yaml)
      case Err(e) => Err(ParseFailed(e))
      case Ok(doc) => Ok(doc.meta.version)
  }

  /** What a successful bump or set returns and writes. */
  datatype Rewrite = Rewrite(oldVersion: string, newVersion: string, content: string)

  /** The outcome of `BumpVersion` on an instruction file holding `file`. */
  function BumpRewrite(name: string, description: string, file: Option<string>, yaml: YamlCodec)
    : Result<Rewrite, CommandError>
  {
    if ValidateName(name).Fail? then Err(BadName(ValidateName(name).error))
    else if file.None? then Err(ReadFailed)
    else
      match ParseFrontmatter(file.value, yaml)
      case Err(e) => Err(ParseFailed(e))
      case Ok(doc) =>
        match BumpPatch(doc.meta.version)
        case Err(e) => Err(BadVersion(e))
        case Ok(newVersion) =>
          Ok(Rewrite(doc.meta.version, newVersion,
                     Render(UpdateMeta(doc.meta, newVersion, description), doc.body, yaml)))
  }

  /** The outcome of `SetVersion` on an instruction file holding `file`: the
      format gate comes before the file is read. */
  function SetRewrite(name: string, version: string, description: string, file: Option<string>, yaml: YamlCodec)
    : Result<Rewrite, CommandError>
  {
    if ValidateName(name).Fail? then Err(BadName(ValidateName(name).error))
    else if !MatchesSemver(version) then Err(NotSemver(version))
    else if file.None? then Err(ReadFailed)
    else
      match ParseFrontmatter(file.value, yaml)
      case Err(e) => Err(ParseFailed(e))
      case Ok(doc) =>
        Ok(Rewrite(doc.meta.version, version,
                   Render(UpdateMeta(doc.meta, version, description), doc.body, yaml)))
  }

  /** A bump rewrites the file so that it reads back as the old metadata with
      the bumped version (and the new description, if any) and the same body;
      `GetVersion` then answers the new version, which is the old one bumped. */
  lemma BumpReadsBack(name: string, description: string, file: Option<string>, yaml: YamlCodec)
    requires BumpRewrite(name, description, file, yaml).Ok?
    requires file.Some? && ParseFrontmatter(file.value, yaml).Ok? ==>
               LawfulFor(yaml, UpdateMeta(ParseFrontmatter(file.value, yaml).value.meta,
                                          BumpRewrite(name, description, file, yaml).value.newVersion,
                                          description))
    ensures file.Some? && ParseFrontmatter(file.value, yaml).Ok?
    ensures var doc := ParseFrontmatter(file.value, yaml).value;
            var rw := BumpRewrite(name, description, file, yaml).value;
            && rw.oldVersion == doc.meta.version
            && BumpPatch(doc.meta.version) == Ok(rw.newVersion)
            && ParseFrontmatter(rw.content, yaml)
               == Ok(Document(UpdateMeta(doc.meta, rw.newVersion, description), doc.body))
            && GetVersion(name, Some(rw.content), yaml) == Ok(rw.newVersion)
  {
    var doc := ParseFrontmatter(file.value, yaml).value;
    var rw := BumpRewrite(name, description, file, yaml).value;
    RenderRoundTrip(UpdateMeta(doc.meta, rw.newVersion, description), doc.body, yaml);
  }

  /** A set rewrites the file so that it reads back with the given version and
      the same body, and returns the version that was there before. */
  lemma SetReadsBack(name: string, version: string, description: string, file: Option<string>, yaml: YamlCodec)
    requires SetRewrite(name, version, description, file, yaml).Ok?
    requires file.Some? && ParseFrontmatter(file.value, yaml).Ok? ==>
               LawfulFor(yaml, UpdateMeta(ParseFrontmatter(file.value, yaml).value.meta, version, description))
    ensures file.Some? && ParseFrontmatter(file.value, yaml).Ok?
    ensures var doc := ParseFrontmatter(file.value, yaml).value;
            var rw := SetRewrite(name, version, description, file, yaml).value;
            && rw.oldVersion == doc.meta.version
            && rw.newVersion == version
            && IsSemver(version)
            && ParseFrontmatter(rw.content, yaml)
               == Ok(Document(UpdateMeta(doc.meta, version, description), doc.body))
            && GetVersion(name, Some(rw.content), yaml) == Ok(version)
  {
    var doc := ParseFrontmatter(file.value, yaml).value;
    MatchesSemverIff(version);
    RenderRoundTrip(UpdateMeta(doc.meta, version, description), doc.body, yaml);
  }

  /** `SetVersion` refuses every version outside `X.Y.Z` whatever the file
      holds, even when it cannot be read. */
  lemma SetRejectsNonSemver(name: string, version: string, description: string, file: Option<string>, yaml: YamlCodec)
    requires ValidateName(name) == Pass && !IsSemver(version)
    ensures SetRewrite(name, version, description, file, yaml) == Err(NotSemver(version))
  {
    MatchesSemverIff(version);
  }

  /** `SetVersion` has no ordering check: any `X.Y.Z` version, lower than the
      current one included, replaces a readable file's version. */
  lemma SetAcceptsAnyVersion(name: string, version: string, description: string, file: Option<string>, yaml: YamlCodec)
    requires ValidateName(name) == Pass && IsSemver(version)
    requires file.Some? && ParseFrontmatter(file.value, yaml).Ok?
    ensures SetRewrite(name, version, description, file, yaml).Ok?
    ensures SetRewrite(name, version, description, file, yaml).value.oldVersion
            == ParseFrontmatter(file.value, yaml).value.meta.version
  {
    MatchesSemverIff(version);
  }

  /** `GetVersion`. */
  method ReadVersion(dir: InstructionsDir, name: string, yaml: YamlCodec) returns (r: Result<string, CommandError>)
    ensures r == GetVersion(name, dir.ReadFile(InstructionPath(name)), yaml)
  {
    var valid := ValidateName(name);
    if valid.Fail? {
      return Err(BadName(valid.error));
    }
    var data := dir.ReadFile(InstructionPath(name));
    if data.None? {
      return Err(ReadFailed);
    }
    var parsed := ParseFrontmatter(data.value, yaml);
    if parsed.Err? {
      return Err(ParseFailed(parsed.error));
    }
    return Ok(parsed.value.meta.version);
  }

  /** `BumpVersion`: read, bump the patch, update the metadata, write the file
      back; returns the old and the new version. Nothing is written on failure. */
  method BumpVersion(dir: InstructionsDir, name: string, description: string, yaml: YamlCodec)
    returns (r: Result<(string, string), CommandError>)
    requires dir.Valid()
    modifies dir
    ensures dir.Valid() && dir.entries == old(dir.entries)
    ensures var spec := BumpRewrite(name, description, old(dir.ReadFile(InstructionPath(name))), yaml);
            && (spec.Err? ==> r == Err(spec.error) && dir.files == old(dir.files))
            && (spec.Ok? ==> r == Ok((spec.value.oldVersion, spec.value.newVersion))
                             && dir.files == old(dir.files)[InstructionPath(name) := spec.value.content])
  {
    var valid := ValidateName(name);
    if valid.Fail? {
      return Err(BadName(valid.error));
    }
    var path := InstructionPath(name);
    var data := dir.ReadFile(path);
    if data.None? {
      return Err(ReadFailed);
    }
    var parsed := ParseFrontmatter(data.value, yaml);
    if parsed.Err? {
      return Err(ParseFailed(parsed.error));
    }
    var meta := parsed.value.meta;
    var body := parsed.value.body;
    var oldVersion := meta.version;
    var bumped := BumpPatch(oldVersion);
    if bumped.Err? {
      return Err(BadVersion(bumped.error));
    }
    var newVersion := bumped.value;
    meta := meta.(version := newVersion);
    if description != "" {
      meta := meta.(description := description);
    }
    var content := "---\n" + yaml.encode(meta) + "---\n" + body;
    dir.WriteFile(path, content);
    return Ok((oldVersion, newVersion));
  }

  /** `SetVersion`: the name check and the `X.Y.Z` gate, then read, replace the
      version, update the description, write the file back; returns the old
      version. Nothing is written on failure. */
  method SetVersion(dir: InstructionsDir, name: string, version: string, description: string, yaml: YamlCodec)
    returns (r: Result<string, CommandError>)
    requires dir.Valid()
    modifies dir
    ensures dir.Valid() && dir.entries == old(dir.entries)
    ensures var spec := SetRewrite(name, version, description, old(dir.ReadFile(InstructionPath(name))), yaml);
            && (spec.Err? ==> r == Err(spec.error) && dir.files == old(dir.files))
            && (spec.Ok? ==> r == Ok(spec.value.oldVersion)
                             && dir.files == old(dir.files)[InstructionPath(name) := spec.value.content])
  {
    var valid := ValidateName(name);
    if valid.Fail? {
      return Err(BadName(valid.error));
    }
    if !MatchesSemver(version) {
      return Err(NotSemver(version));
    }
    var path := InstructionPath(name);
    var data := dir.ReadFile(path);
    if data.None? {
      return Err(ReadFailed);
    }
    var parsed := ParseFrontmatter(data.value, yaml);
    if parsed.Err? {
      return Err(ParseFailed(parsed.error));
    }
    var meta := parsed.value.meta;
    var body := parsed.value.body;
    var oldVersion := meta.version;
    meta := meta.(version := version);
    if description != "" {
      meta := meta.(description := description);
    }
    var content := "---\n" + yaml.encode(meta) + "---\n" + body;
    dir.WriteFile(path, content);
    return Ok(oldVersion);
  }
}
