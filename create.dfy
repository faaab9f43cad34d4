/** Instruction names and the creation of a new instruction
    (internal/instruction/create.go). */
module Creation {
  import opened Wrappers
  import opened Frontmatter
  import opened Store

  datatype NameError = EmptyName | InvalidNameCharacters

  /** A character of the class `[a-zA-Z0-9_]`. */
  predicate IsNameChar(c: char) {
    ('a' <= c <= 'z') || ('A' <= c <= 'Z') || ('0' <= c <= '9') || c == '_'
  }

  /** `ValidateName`: an empty name and a name that does not match
      `^[a-zA-Z0-9_]+$` are refused with different errors. */
  function ValidateName(name: string): (r: Outcome<NameError>)
    ensures r == Fail(EmptyName) <==> name == []
    ensures r == Pass <==> name != [] && forall i :: 0 <= i < |name| ==> IsNameChar(name[i])
    ensures r.Fail? ==> r.error == EmptyName || r.error == InvalidNameCharacters
  {
    if name == [] then Fail(EmptyName)
    else if forall i | 0 <= i < |name| :: IsNameChar(name[i]) then Pass
    else Fail(InvalidNameCharacters)
  }

  /** One character outside the class anywhere in the name is enough to refuse
      it: this covers `-`, `.`, `/`, a space, and a trailing newline (Go's `$`
      matches only at the end of the text). */
  lemma ForeignCharRefused(before: string, c: char, after: string)
    requires !IsNameChar(c)
    ensures ValidateName(before + [c] + after) == Fail(InvalidNameCharacters)
  {
    var name := before + [c] + after;
    assert name[|before|] == c;
  }

  /** A valid name followed by a line break is refused: `$` in Go's regular
      expressions matches only at the very end of the text. */
  lemma TrailingNewlineRefused(name: string)
    requires ValidateName(name) == Pass
    ensures ValidateName(name + "\n") == Fail(InvalidNameCharacters)
  {
    ForeignCharRefused(name, '\n', "");
    assert name + ['\n'] + "" == name + "\n";
  }

  /** A valid name is a single path element: it holds no separator and no dot,
      so joining it to the instructions directory stays inside it. */
  lemma ValidNameIsPathElement(name: string)
    requires ValidateName(name) == Pass
    ensures '/' !in name && '.' !in name && '\\' !in name
  {
    assert forall i :: 0 <= i < |name| ==> IsNameChar(name[i]);
  }

  /** The metadata a new instruction starts with. */
  function InitialMeta(description: string): (m: Meta)
    ensures m.version == "0.1.0" && m.description == description
    ensures m.tags == [] && m.lang == ""
  {
    Meta("0.1.0", description, [], "")
  }

  datatype CreateError = InvalidName(nameError: NameError) | AlreadyExists(name: string)

  const SystemFile: string := "system.txt"
  const MetaFile: string := "meta.yaml"

  /** `Create` up to the editor: validates the name, refuses an existing
      entry, then makes the entry with an empty `system.txt` and a
      `meta.yaml` holding version 0.1.0 and the description. Nothing is
      touched when it fails. */
  method Create(dir: InstructionsDir, name: string, description: string, yaml: YamlCodec)
    returns (r: Outcome<CreateError>)
    requires dir.Valid()
    modifies dir
    ensures dir.Valid()
    ensures ValidateName(name).Fail? ==> r == Fail(InvalidName(ValidateName(name).error))
    ensures ValidateName(name).Pass? && name in old(dir.entries) ==> r == Fail(AlreadyExists(name))
    ensures r.Fail? ==> dir.entries == old(dir.entries) && dir.files == old(dir.files)
    ensures r.Pass? <==> ValidateName(name).Pass? && name !in old(dir.entries)
    ensures r.Pass? ==> dir.entries == old(dir.entries) + {name}
    ensures r.Pass? ==> dir.files == old(dir.files)[Path(name, SystemFile) := ""]
                                                   [Path(name, MetaFile) := yaml.encode(InitialMeta(description))]
  {
    var valid := ValidateName(name);
    if valid.Fail? {
      return Fail(InvalidName(valid.error));
    }
    if name in dir.entries {
      return Fail(AlreadyExists(name));
    }
    dir.MkdirAll(name);
    dir.WriteFile(Path(name, SystemFile), "");
    var meta := InitialMeta(description);
    dir.WriteFile(Path(name, MetaFile), yaml.encode(meta));
    return Pass;
  }
}
