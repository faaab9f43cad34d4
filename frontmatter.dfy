/** The instruction document: a YAML metadata block between two `---`
    delimiters, followed by a markdown body (internal/instruction/frontmatter.go,
    internal/instruction/instruction.go). */
module Frontmatter {
  import opened Wrappers
  import opened Strings

  /** The metadata record of an instruction. A `nil` tag list is `[]`. */
  datatype Meta = Meta(version: string, description: string, tags: seq<string>, lang: string)

  /** yaml.v3's `Marshal` and `Unmarshal` for `Meta`, which are not part of the
      model and are taken as parameters: `decode` answers `None` where
      `Unmarshal` returns an error. */
  datatype YamlCodec = YamlCodec(encode: Meta -> string, decode: string -> Option<Meta>)

  /** The parsed document: metadata and body. */
  datatype Document = Document(meta: Meta, body: string)

  datatype FrontmatterError = MissingStartDelimiter | MissingEndDelimiter | InvalidYaml

  const Delimiter: string := "---"

  ghost predicate NoDelimiter(s: string) {
    forall i :: !OccursAt(s, Delimiter, i)
  }

  predicate EndsWithDash(s: string) {
    s != [] && s[|s| - 1] == '-'
  }

  /** What the model assumes of the YAML library for the metadata `m` that is
      written: the text it produces holds no `---` and does not end in `-`
      (yaml.v3 ends every document with a newline), and reading that text back
      after the newline that follows the opening delimiter gives `m` again.
      yaml.v3 breaks the first condition for a description or tag that holds
      `---`, so this is a condition on the metadata, not on the library. */
  ghost predicate LawfulFor(yaml: YamlCodec, m: Meta) {
    && NoDelimiter(yaml.encode(m))
    && !EndsWithDash(yaml.encode(m))
    && yaml.decode("\n" + yaml.encode(m)) == Some(m)
  }

  /** `first` is the first occurrence of the delimiter in `content`. */
  predicate FirstDelimiter(content: string, first: int) {
    OccursAt(content, Delimiter, first)
    && forall i :: 0 <= i < first ==> !OccursAt(content, Delimiter, i)
  }

  /** The two delimiters the parser settles on: the first occurrence, and the
      first occurrence that starts after it has ended (they never overlap). */
  predicate Delimiters(content: string, first: int, second: int) {
    FirstDelimiter(content, first)
    && first + |Delimiter| <= second
    && OccursAt(content, Delimiter, second)
    && forall i :: first + |Delimiter| <= i < second ==> !OccursAt(content, Delimiter, i)
  }

  /** `ParseFrontmatter`: find the first delimiter, then the first one that
      starts after it has ended; decode the text between them; the body is
      what follows the second one with its leading newlines removed. The
      three lemmas below characterise the result completely. */
  function ParseFrontmatter(content: string, yaml: YamlCodec): (r: Result<Document, FrontmatterError>)
    ensures r.Ok? ==> r.value.body == [] || r.value.body[0] != '\n'
  {
    var first := IndexFrom(content, Delimiter, 0);
    if first == -1 then Err(MissingStartDelimiter)
    else
      var searchStart := first + |Delimiter|;
      var second := IndexFrom(content, Delimiter, searchStart);
      if second == -1 then Err(MissingEndDelimiter)
      else ParseBetween(content, first, second, yaml)
  }

  /** The parse once both delimiters are found: decode the text between them;
      the body is what follows the second one less its leading newlines. */
  function ParseBetween(content: string, first: nat, second: nat, yaml: YamlCodec)
    : (r: Result<Document, FrontmatterError>)
    requires first + |Delimiter| <= second && second + |Delimiter| <= |content|
    ensures r.Ok? ==> r.value.body == [] || r.value.body[0] != '\n'
  {
    var metaText := content[first + |Delimiter|..second];
    var bodyStart := second + |Delimiter|;
    var body := if bodyStart < |content| then TrimLeftNewlines(content[bodyStart..]) else "";
    match yaml.decode(metaText)
    case None => Err(InvalidYaml)
    case Some(meta) => Ok(Document(meta, body))
  }

  /** Text with no `---` anywhere fails on the start delimiter, and only such
      text does. */
  lemma ParseWithoutDelimiter(content: string, yaml: YamlCodec)
    ensures ParseFrontmatter(content, yaml) == Err(MissingStartDelimiter) <==> NoDelimiter(content)
  {
    var first := IndexFrom(content, Delimiter, 0);
    if first != -1 {
      assert !NoDelimiter(content) by {
        assert OccursAt(content, Delimiter, first);
      }
    }
  }

  /** Once the first delimiter is found, the parse fails on the end delimiter
      exactly when no `---` starts at or after the end of the first one:
      the two delimiters never share characters. */
  lemma ParseWithoutEndDelimiter(content: string, first: int, yaml: YamlCodec)
    requires FirstDelimiter(content, first)
    ensures ParseFrontmatter(content, yaml) == Err(MissingEndDelimiter)
            <==> forall i :: first + |Delimiter| <= i ==> !OccursAt(content, Delimiter, i)
  {
    IndexFromFinds(content, Delimiter, 0, first);
    var second := IndexFrom(content, Delimiter, first + |Delimiter|);
    if second != -1 {
      assert OccursAt(content, Delimiter, second);
    }
  }

  /** With both delimiters found, the text before the first is ignored, the
      decoder sees exactly the text between them, a decoder failure is the
      only error left, and the body is everything after the second delimiter
      with leading newlines (and nothing else) removed — empty when the
      second delimiter ends the text. */
  lemma ParseWithDelimiters(content: string, first: int, second: int, yaml: YamlCodec)
    requires Delimiters(content, first, second)
    ensures ParseFrontmatter(content, yaml)
            == match yaml.decode(content[first + |Delimiter|..second])
               case None => Err(InvalidYaml)
               case Some(m) => Ok(Document(m, TrimLeftNewlines(content[second + |Delimiter|..])))
  {
    IndexFromFinds(content, Delimiter, 0, first);
    IndexFromFinds(content, Delimiter, first + |Delimiter|, second);
    assert ParseFrontmatter(content, yaml) == ParseBetween(content, first, second, yaml);
    ParseBetweenBody(content, first, second, yaml);
  }

  /** The body `ParseBetween` returns, also when the second delimiter ends the text. */
  lemma ParseBetweenBody(content: string, first: nat, second: nat, yaml: YamlCodec)
    requires first + |Delimiter| <= second && second + |Delimiter| <= |content|
    ensures ParseBetween(content, first, second, yaml)
            == match yaml.decode(content[first + |Delimiter|..second])
               case None => Err(InvalidYaml)
               case Some(m) => Ok(Document(m, TrimLeftNewlines(content[second + |Delimiter|..])))
  {
    var rest := content[second + |Delimiter|..];
    if second + |Delimiter| == |content| {
      assert rest == [];
    }
  }

  /** The file text that `BumpVersion` and `SetVersion` write:
      `"---\n" + yaml + "---\n" + body`. */
  function Render(meta: Meta, body: string, yaml: YamlCodec): string {
    "---\n" + yaml.encode(meta) + "---\n" + body
  }

  /** Removing the leading newlines of some newlines followed by a body that
      does not start with one gives back the body. */
  lemma {:induction false} TrimNewlinesBeforeBody(newlines: string, b: string)
    requires forall i :: 0 <= i < |newlines| ==> newlines[i] == '\n'
    requires b == [] || b[0] != '\n'
    ensures TrimLeftNewlines(newlines + b) == b
    decreases |newlines|
  {
    if newlines == [] {
      assert newlines + b == b;
    } else {
      assert (newlines + b)[1..] == newlines[1..] + b;
      TrimNewlinesBeforeBody(newlines[1..], b);
    }
  }

  /** In `"---\n" + y + "---\n" + b`, with `y` free of the delimiter and not
      ending in `-`, the delimiters are the two written ones. */
  lemma {:induction false} RenderedDelimiters(y: string, b: string)
    requires NoDelimiter(y) && !EndsWithDash(y)
    ensures Delimiters("---\n" + y + "---\n" + b, 0, 4 + |y|)
  {
    var c := "---\n" + y + "---\n" + b;
    var second := 4 + |y|;
    assert c[..3] == Delimiter;
    assert c[second..second + 3] == Delimiter;
    forall i | 3 <= i < second ensures !OccursAt(c, Delimiter, i) {
      if i == 3 {
        assert c[3] == '\n';
      } else if i + 3 <= second {
        assert c[i..i + 3] == y[i - 4..i - 1];
        assert !OccursAt(y, Delimiter, i - 4);
      } else {
        assert c[second - 1] == y[|y| - 1];
        assert c[i..i + 3][second - 1 - i] == c[second - 1];
      }
    }
  }

  /** Parsing a rendered document: the metadata text handed to the decoder is
      the newline plus the encoded metadata, and the body is what was written
      after the second delimiter's newline, less its leading newlines. */
  lemma RenderedParse(y: string, b: string, yaml: YamlCodec)
    requires NoDelimiter(y) && !EndsWithDash(y)
    ensures ParseFrontmatter("---\n" + y + "---\n" + b, yaml)
            == match yaml.decode("\n" + y)
               case None => Err(InvalidYaml)
               case Some(m) => Ok(Document(m, TrimLeftNewlines("\n" + b)))
  {
    RenderedDelimiters(y, b);
    RenderedSlices(y, b);
    ParseSlices("---\n" + y + "---\n" + b, y, b, yaml);
  }

  /** `ParseWithDelimiters` for delimiters at 0 and `4 + |y|` around the metadata text `"\n" + y`. */
  lemma ParseSlices(c: string, y: string, b: string, yaml: YamlCodec)
    requires Delimiters(c, 0, 4 + |y|)
    requires c[3..4 + |y|] == "\n" + y && c[7 + |y|..] == "\n" + b
    ensures ParseFrontmatter(c, yaml)
            == match yaml.decode("\n" + y)
               case None => Err(InvalidYaml)
               case Some(m) => Ok(Document(m, TrimLeftNewlines("\n" + b)))
  {
    ParseWithDelimiters(c, 0, 4 + |y|, yaml);
  }

  /** The metadata text and the text after the second delimiter of a rendered document. */
  lemma RenderedSlices(y: string, b: string)
    ensures var c := "---\n" + y + "---\n" + b;
            c[3..4 + |y|] == "\n" + y && c[7 + |y|..] == "\n" + b
  {
  }

  /** Round trip: reading back what `Render` wrote gives the same metadata and
      the same body, for every body that does not start with a newline — which
      includes every body `ParseFrontmatter` returns. */
  lemma RenderRoundTrip(meta: Meta, body: string, yaml: YamlCodec)
    requires LawfulFor(yaml, meta)
    requires body == [] || body[0] != '\n'
    ensures ParseFrontmatter(Render(meta, body, yaml), yaml) == Ok(Document(meta, body))
  {
    var y := yaml.encode(meta);
    RenderedParse(y, body, yaml);
    TrimNewlinesBeforeBody("\n", body);
  }

  /** Blank lines written between the second delimiter and the body do not
      survive a read: only the body after them comes back. */
  lemma LeadingNewlinesLost(y: string, b: string, yaml: YamlCodec)
    requires NoDelimiter(y) && !EndsWithDash(y)
    requires b == [] || b[0] != '\n'
    requires yaml.decode("\n" + y).Some?
    ensures ParseFrontmatter("---\n" + y + "---\n" + ("\n\n" + b), yaml)
            == Ok(Document(yaml.decode("\n" + y).value, b))
  {
    RenderedParse(y, "\n\n" + b, yaml);
    TrimThreeNewlines(b);
  }

  lemma TrimThreeNewlines(b: string)
    requires b == [] || b[0] != '\n'
    ensures TrimLeftNewlines("\n" + ("\n\n" + b)) == b
  {
    TrimNewlinesBeforeBody("\n\n\n", b);
    assert "\n\n\n" + b == "\n" + ("\n\n" + b);
  }

  /** The no-trailing-dash assumption is needed: with metadata text `a-` the
      second delimiter is found one character early and a `-` leaks into the
      body. */
  lemma TrailingDashShiftsDelimiter(c: string, yaml: YamlCodec)
    requires c == "---\na----\nx"
    ensures ParseFrontmatter(c, yaml).Ok? ==> ParseFrontmatter(c, yaml).value.body == "-\nx"
  {
    assert c[3] == '\n' && c[4] == 'a';
    assert c[..3] == Delimiter && c[5..8] == Delimiter;
    assert Delimiters(c, 0, 5);
    ParseWithDelimiters(c, 0, 5, yaml);
    assert c[8..] == "-\nx";
    TrimNewlinesBeforeBody("", "-\nx");
  }

  /** Every error leaves the delimiters the deciding factor: text without any
      `---` fails on the start delimiter whatever the decoder would say. */
  lemma NoDelimiterMeansMissingStart(content: string, yaml: YamlCodec)
    requires forall i :: 0 <= i < |content| ==> content[i] != '-'
    ensures ParseFrontmatter(content, yaml) == Err(MissingStartDelimiter)
  {
    forall i | 0 <= i && i + 3 <= |content| ensures !OccursAt(content, Delimiter, i) {
      assert content[i..i + 3][0] == content[i];
    }
  }
}
