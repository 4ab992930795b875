# Beefcake code generator, modelled in Dafny

Beefcake's `protoc-gen-beefcake` plugin turns an already-decoded
`CodeGeneratorRequest` into Ruby source: one `.pb.rb` file for each proto
file. This project models `Beefcake::Generator` (`lib/beefcake/generator.rb`).
The model proves that each emitter writes exactly the lines a
specification function describes, and proves what those lines look like.

The project has seven modules, one file each:

- `Wrappers` (wrappers.dfy): `Option`.
- `Text` (text.dfy): the Ruby string operations the generator relies on, in
  ASCII:
  - `upcase`/`downcase`;
  - `"  " * n`;
  - `split`, with trailing empty fields dropped, and `join`;
  - `strip` of the header line;
  - `"%d" % x`.
- `Descriptors` (descriptors.dfy): the descriptor classes of the request and
  the response as datatypes, and the `Type`/`Label` constants as enumerations.
  A fixed table gives each constant's name.
- `Casing` (casing.dfy): `capitalize` and `camelize`. `camelize` is built
  from three steps:
  - the leading `sub`;
  - the `gsub!` over `_`/`/` segments;
  - the `gsub!('/', '::')`.
- `Fields` (fields.dfy): `name_for`, the type token, the default expression
  and the declaration line that `field!` writes. It also has a reader for
  that line, used to prove the line loses nothing.
- `Layout` (layout.dfy): the lines each emitter writes, as functions of the
  descriptors and of the depth. Its lemmas cover the order, the nesting
  and the indentation of the output.
- `Output` (output.dfy): what `StringIO#puts` accumulates, and the
  `File.basename(name, ".proto") + ".pb.rb"` file name.
- `Generator` (generator.dfy): the class `Generator`, with the depth `n`
  (`@n`) and the written lines `c` (`@c`) as fields:
  - `Puts`, `Indent` and `IndentTo` change them;
  - each emitter is a method, and every `.each` loop is a `for` loop with
    its invariant;
  - `self.compile` is the static method `Compile`.

The Ruby blocks handed to `indent` and `ns!` are values of the datatype
`Layout.Block`, and `Generator.RunBlock` plays `blk.call`.

- `Puts` keeps the depth and appends one line: the message after the
  current indentation, or an empty line for `nil`.
- `IndentTo` sets the depth and writes nothing.
- Each emitter promises two things. The emitters are `Indent`,
  `RunBlock`, the `*Block` methods, `Enums`/`Defines`/`Messages`,
  `Define`/`Message`/`Enum`/`Field`, `Ns`/`Module` and `CompileFile`.
  - The depth on return is the depth on entry.
  - The lines on return are the lines on entry, followed by the lines its
    `ensures` names. These are mostly a Layout function of its arguments
    at the entry depth.
- The static `CompileProto` and `Compile` have no depth. Each starts a
  fresh generator per file. `CompileProto` returns
  `Generator.ResponseFor` of its file, and `Compile` returns
  `Generator.ResponsesFor` of the request's files.

Where the code and a plain reading of it differ, the model follows the code:

- **Header.** Line 264 tests `file.package` for truth. In Ruby an empty
  string is true, so for any package that is present the header is
  `## Generated from NAME for PKG`, stripped. With an empty package that
  gives `## Generated from NAME for`. An "only when the package is
  non-empty" reading is not what the code does (`Layout.Header`).
- **Raw names.** Message and enum names are written raw, without `camelize`.
  Only package parts and `type_name` segments are camelized.
- **Field name.** The field name is written raw after `:`.

## Model

| member | source | states |
|---|---|---|
| Casing.Capitalize | lib/beefcake/generator.rb:310-311 | String#capitalize upcases the first character and leaves no upper-case letter after it; it keeps the length and the word characters and agrees with its input up to case |
| Casing.LowerRunLength | lib/beefcake/generator.rb:310 | the length of the longest `[a-z\d]*` prefix: every character before it matches and the next one does not |
| Casing.WordRunLength | lib/beefcake/generator.rb:311 | the length of the longest case-insensitive `[a-z\d]*` prefix, maximal in the same sense |
| Casing.CapitalizeLeadingIsUpcaseFirst | lib/beefcake/generator.rb:310 | capitalizing the leading `[a-z\d]*` run is the same as upcasing the first character |
| Casing.UnderscoreRunsOfParts | lib/beefcake/generator.rb:306 | runs of `[A-Z\d]+` joined by `_` match the passthrough pattern, and two or more of them contain an underscore |
| Casing.ScreamingSnakeSplits | lib/beefcake/generator.rb:306 | a string matching the passthrough pattern is two or more `[A-Z\d]+` runs joined by `_` |
| Casing.CamelizeKeepsScreamingSnake | lib/beefcake/generator.rb:306-308 | camelize returns unchanged any two or more `[A-Z\d]+` runs joined by `_` |
| Casing.CamelizeIdentifier | lib/beefcake/generator.rb:309-313 | for identifiers (a word of letters, digits and `_`/`/` separators, as protobuf names and package parts are): on a word followed by `_`/`/`-separated words, not a constant, camelize upcases the first letter, capitalizes each word after a separator, drops each `_` and turns each `/` into `::` |
| Casing.SegmentsCamelized | lib/beefcake/generator.rb:311-312 | the two `gsub!` steps turn each separator-and-word segment into its scope token and the capitalized word |
| Casing.SegmentStep | lib/beefcake/generator.rb:311-312 | the first segment is replaced on its own, independently of the segments after it |
| Casing.CapitalizeSegmentsSkipsPlain | lib/beefcake/generator.rb:311 | text without `_` or `/` passes through the segment `gsub!` unchanged |
| Casing.CapitalizeSegmentsHasNoUnderscore | lib/beefcake/generator.rb:311 | after the segment `gsub!` no `_` is left |
| Casing.CapitalizeSegmentsUpToCase | lib/beefcake/generator.rb:311 | up to case, the segment `gsub!` only removes the underscores |
| Casing.CapitalizeSegmentsFirst | lib/beefcake/generator.rb:311 | the segment `gsub!` never makes the first character lower-case |
| Casing.SlashesToScopesConcat | lib/beefcake/generator.rb:312 | `gsub!('/', '::')` distributes over concatenation |
| Casing.SlashesToScopesKeepsPlain | lib/beefcake/generator.rb:312 | text without `/` is unchanged by `gsub!('/', '::')` |
| Casing.SlashesToScopesRemovesSlashes | lib/beefcake/generator.rb:312 | after `gsub!('/', '::')` no `/` is left, and no `_` is introduced |
| Casing.SlashesToScopesDowncase | lib/beefcake/generator.rb:312 | `gsub!('/', '::')` commutes with downcasing |
| Casing.CamelizeRemovesSeparators | lib/beefcake/generator.rb:309-313 | apart from a constant, the result of camelize contains neither `_` nor `/` |
| Casing.CamelizeChangesOnlyCase | lib/beefcake/generator.rb:309-313 | apart from a constant, camelize agrees up to case with its input with underscores dropped and `/` turned into `::` |
| Casing.CamelizedFirst | lib/beefcake/generator.rb:309-313 | apart from a constant, the result of camelize does not start with a lower-case letter |
| Casing.CamelizedIsFixed | lib/beefcake/generator.rb:304-315 | a camelized identifier is not a constant, and each of camelize's three steps leaves it unchanged |
| Casing.CamelizeIdempotent | lib/beefcake/generator.rb:304-315 | camelizing twice is camelizing once |
| Fields.AfterLastUnderscore | lib/beefcake/generator.rb:260 | `gsub(/.*_/, "")` leaves a suffix of its input with no `_`, preceded in the input by `_` when anything was removed |
| Fields.AfterLastUnderscoreOf | lib/beefcake/generator.rb:260 | for `p_w` with no `_` in `w` the result is `w` |
| Fields.NameForOf | lib/beefcake/generator.rb:258-261 | name_for of a constant `p_w` is `w` lowercased |
| Fields.LabelTokens | lib/beefcake/generator.rb:258-261 | name_for turns the three Label constants into `optional`, `required`, `repeated` |
| Fields.LabelSuffixDowncased | lib/beefcake/generator.rb:258-261 | each Label constant's suffix, downcased, is its keyword |
| Fields.ScalarTypeTokens | lib/beefcake/generator.rb:235-237 | without a `type_name` the type token is `:` followed by the lowercased Type suffix, e.g. `:sfixed32` for TYPE_SFIXED32 |
| Fields.TypeSuffixDowncased | lib/beefcake/generator.rb:258-261 | each Type constant's suffix, downcased, is its scalar keyword |
| Fields.StripLeadingDots | lib/beefcake/generator.rb:234 | `gsub(/^\.*/, "")` removes exactly the leading dots |
| Fields.CamelizeAll | lib/beefcake/generator.rb:234 | `map { camelize }` camelizes each element and keeps the order |
| Fields.TypeReferenceIgnoresLeadingDots | lib/beefcake/generator.rb:233-234 | leading dots make no difference to the type token: `.a.b` and `a.b` give the same token |
| Fields.TypeReferenceOfPath | lib/beefcake/generator.rb:233-234 | a dotted path of non-empty segments becomes its camelized segments joined by `::` |
| Fields.EscapeQuotes | lib/beefcake/generator.rb:247 | the escaped text never starts with a bare `"` |
| Fields.EscapeQuotesRoundTrip | lib/beefcake/generator.rb:247 | `gsub('"', '\"')` loses nothing: unescaping gives the text back |
| Fields.EscapedQuotesArePreceded | lib/beefcake/generator.rb:247 | in escaped text every `"` has a backslash before it |
| Fields.DefaultExprRoundTrip | lib/beefcake/generator.rb:242-253 | a default expression exists iff `default_value` is set (the empty string included), and, by the field's type, the value reads back from it |
| Fields.LabelOfToken | lib/beefcake/generator.rb:227 | a keyword read back names a label whose keyword it is |
| Fields.LabelOfKeyword | lib/beefcake/generator.rb:227 | each label's keyword reads back as that label |
| Fields.IntTextOf | lib/beefcake/generator.rb:240 | `"%d"` writes decimal text with no comma that reads back as the number |
| Fields.NumberAndDefaultOf | lib/beefcake/generator.rb:240-252 | the number followed by the default suffix reads back as the number and the default |
| Fields.DeclLineRoundTrip | lib/beefcake/generator.rb:240-252 | the line `label :name, type, number[, :default => v]` reads back as its parts |
| Fields.DeclTextOf | lib/beefcake/generator.rb:240 | the label, the name and the type token of a declaration line are read off its front |
| Fields.FieldDeclRoundTrip | lib/beefcake/generator.rb:225-256 | the line field! writes reads back as the field's label, name, type token, number and default expression |
| Text.Upcase | lib/beefcake/generator.rb:310-311 | ASCII upcase: no lower-case letter results, letters stay letters, other characters are unchanged |
| Text.Downcase | lib/beefcake/generator.rb:260 | ASCII downcase: no upper-case letter results, letters stay letters, other characters are unchanged, and upcasing first makes no difference |
| Text.DowncaseAll | lib/beefcake/generator.rb:260 | String#downcase downcases every character and keeps the length |
| Text.DowncaseAllConcat | lib/beefcake/generator.rb:260 | downcasing distributes over concatenation |
| Text.Indentation | lib/beefcake/generator.rb:298 | `"  " * n` is exactly `2n` spaces |
| Text.IndentationGrows | lib/beefcake/generator.rb:298 | the indentation for a deeper level extends the one for a shallower level |
| Text.SplitAll | lib/beefcake/generator.rb:234 | splitting gives at least one field and no field contains the separator |
| Text.JoinSplitAll | lib/beefcake/generator.rb:234 | joining the fields with the separator gives the text back |
| Text.SplitAllJoin | lib/beefcake/generator.rb:234 | splitting a join of separator-free parts gives the parts back |
| Text.SplitAllAtSeparator | lib/beefcake/generator.rb:234 | text containing the separator splits into at least two fields |
| Text.SplitAllPlainPrefix | lib/beefcake/generator.rb:234 | a separator-free prefix stays in the first field |
| Text.DropTrailingEmpty | lib/beefcake/generator.rb:234 | String#split drops exactly the trailing empty fields |
| Text.StripTrailing | lib/beefcake/generator.rb:265 | `strip` removes exactly the trailing whitespace |
| Text.SplitAtFirst | lib/beefcake/generator.rb:240 | the text splits at the first separator iff it contains one, and the parts rebuild it |
| Text.SplitAtFirstOf | lib/beefcake/generator.rb:240 | text with a separator-free front splits at the separator after that front |
| Text.NatToString | lib/beefcake/generator.rb:240 | `%d` of a natural number is digits without leading zeros that denote it |
| Text.IntToString | lib/beefcake/generator.rb:240 | `%d` begins with `-` exactly for a negative number |
| Text.IntToStringRoundTrip | lib/beefcake/generator.rb:240 | the text `%d` writes reads back as the number |
| Output.Terminated | lib/beefcake/generator.rb:298-300 | IO#puts ends each line with a newline: it writes a line already ending in a newline unchanged, and adds exactly one newline otherwise |
| Output.ContentIsJoin | lib/beefcake/generator.rb:145-151 | for lines without a newline, the text read back from the StringIO is the lines joined by newlines, with a final newline |
| Output.ContentSplitsBack | lib/beefcake/generator.rb:145-151 | for lines without a newline, the text read back loses no line: splitting it at newlines gives the lines back |
| Output.ContentConcat | lib/beefcake/generator.rb:145-151 | writing two runs of lines one after the other gives the two texts one after the other |
| Output.DropTrailingSlashes | lib/beefcake/generator.rb:150 | basename ignores exactly the trailing slashes |
| Output.AfterLastSlash | lib/beefcake/generator.rb:150 | the last path component has no slash and follows the last slash |
| Output.BaseName | lib/beefcake/generator.rb:150 | File.basename gives `/` or a name without a slash |
| Output.OutputName | lib/beefcake/generator.rb:150 | every response file name ends in `.pb.rb` |
| Output.OutputNameOfPath | lib/beefcake/generator.rb:150 | `dir/stem.proto` and `stem.proto` are both written to `stem.pb.rb` |
| Output.BaseNameOf | lib/beefcake/generator.rb:150 | the base name of `dir/stem` followed by the suffix, with the suffix removed, is `stem` |
| Output.AfterLastSlashOf | lib/beefcake/generator.rb:150 | the component after a directory prefix ending in `/` is the rest |
| Output.LastComponentOf | lib/beefcake/generator.rb:150 | a path ending in a slash-free name keeps it as its last component |
| Layout.Line | lib/beefcake/generator.rb:296-298 | a line written with a message at depth `d` is `2d` spaces followed by exactly the message |
| Layout.ValueLines | lib/beefcake/generator.rb:218-220 | enum! writes exactly one line per value, duplicates included |
| Layout.ValueLinesAt | lib/beefcake/generator.rb:218-220 | the `i`-th value line is `NAME = number` for the `i`-th value |
| Layout.FieldsLines | lib/beefcake/generator.rb:206-208 | message! writes exactly one line per field |
| Layout.FieldsLinesAt | lib/beefcake/generator.rb:206-208 | the `i`-th field line is field!'s declaration of the `i`-th field, in declared order |
| Layout.ModuleOpeners | lib/beefcake/generator.rb:288-290 | ns! opens one module per name |
| Layout.ModuleClosers | lib/beefcake/generator.rb:292 | ns! closes as many modules as it opened |
| Layout.OpenersAt | lib/beefcake/generator.rb:284-294 | the `i`-th `module` line opens the `i`-th name, `i` levels deeper than ns! started |
| Layout.ClosersAt | lib/beefcake/generator.rb:284-294 | the `end` lines come innermost first, each at the depth of the module it closes |
| Layout.NestShape | lib/beefcake/generator.rb:284-294 | ns! writes the `module` lines outermost first, then the body at the innermost depth, then the matching `end` lines in reverse |
| Layout.FileLayout | lib/beefcake/generator.rb:263-282 | a compiled file is the header, the require line, a blank line, one `module` line per package part, then the enums, the shells and the bodies at the innermost depth, then the `end` lines |
| Layout.ShellIgnoresFields | lib/beefcake/generator.rb:175-193 | define! writes the same lines whatever fields the message tree has: shells declare no fields |
| Layout.ShellsIgnoreFields | lib/beefcake/generator.rb:188-190 | the same for a list of messages |
| Layout.BodyIgnoresEnums | lib/beefcake/generator.rb:195-212 | message! writes the same lines whatever enums the message tree has: enums belong to the shell pass |
| Layout.BodiesIgnoreEnums | lib/beefcake/generator.rb:201-203 | the same for a list of messages |
| Layout.IndentedByAt | lib/beefcake/generator.rb:296-302 | every line of an indented run is blank or starts with the indentation |
| Layout.IndentedByConcat | lib/beefcake/generator.rb:296-302 | two indented runs written one after the other are indented |
| Layout.LineIndented | lib/beefcake/generator.rb:296-298 | a line written at depth `e` is indented for every depth `d <= e` |
| Layout.ValueLinesIndented | lib/beefcake/generator.rb:218-220 | every value line written at depth `e` is indented at least `d <= e` levels |
| Layout.FieldsLinesIndented | lib/beefcake/generator.rb:206-208 | every field line written at depth `e` is indented at least `d <= e` levels |
| Layout.EnumLinesIndented | lib/beefcake/generator.rb:214-223 | everything enum! writes at depth `e` is blank or indented at least `d <= e` levels |
| Layout.EnumsLinesIndented | lib/beefcake/generator.rb:183-185 | the same for a list of enums |
| Layout.ShellInnerIndented | lib/beefcake/generator.rb:179-191 | the same for what define! writes inside the class |
| Layout.ShellLinesIndented | lib/beefcake/generator.rb:175-193 | the same for define! |
| Layout.ShellsLinesIndented | lib/beefcake/generator.rb:188-190 | the same for a list of define! calls |
| Layout.BodyInnerIndented | lib/beefcake/generator.rb:199-209 | the same for what message! writes inside the class |
| Layout.BodyLinesIndented | lib/beefcake/generator.rb:195-212 | the same for message! |
| Layout.BodiesLinesIndented | lib/beefcake/generator.rb:201-203 | the same for a list of message! calls |
| Layout.FileBodyIndented | lib/beefcake/generator.rb:269-281 | the same for the block compile hands to ns! |
| Layout.BlockLinesIndented | lib/beefcake/generator.rb:165-169 | the same for any block run at depth `e` |
| Layout.NsLinesIndented | lib/beefcake/generator.rb:284-294 | the same for ns! |
| Layout.NestIndented | lib/beefcake/generator.rb:284-294 | the `module`/`end` lines of ns! around an indented body are indented |
| Generator.ResponsesFor | lib/beefcake/generator.rb:144-153 | exactly one response file per proto file |
| Generator.ResponsesForAt | lib/beefcake/generator.rb:143-156 | the `i`-th response is the `i`-th proto file compiled on its own from depth 0 and named after it |
| Generator.MessagesCountBound | lib/beefcake/generator.rb:188-203 | a nested message is no larger than its list, so the emitters' recursion ends |
| Generator.Generator.constructor | lib/beefcake/generator.rb:160-163 | a new generator starts at depth 0 on the given buffer |
| Generator.Generator.Puts | lib/beefcake/generator.rb:296-302 | puts appends one line: the message after `2n` spaces, or an empty line with no indentation; the depth is unchanged |
| Generator.Generator.IndentTo | lib/beefcake/generator.rb:171-173 | indent! sets the depth and writes nothing |
| Generator.Generator.Indent | lib/beefcake/generator.rb:165-169 | indent runs the block at depth `n + 1`, appends what it writes and restores `n` |
| Generator.Generator.RunBlock | lib/beefcake/generator.rb:167 | running a block appends exactly its lines at the current depth and keeps the depth |
| Generator.Generator.ValuesBlock | lib/beefcake/generator.rb:218-220 | the value loop appends one `NAME = number` line per value, in order |
| Generator.Generator.ShellBlock | lib/beefcake/generator.rb:179-191 | inside a class define! appends the include line, the enums, then the nested shells |
| Generator.Generator.MessageBlock | lib/beefcake/generator.rb:199-209 | inside a class message! appends the nested bodies, then the fields in declared order |
| Generator.Generator.FileBlock | lib/beefcake/generator.rb:269-281 | compile's block appends the top-level enums, then every shell, then every body |
| Generator.Generator.Enums | lib/beefcake/generator.rb:183-185 | the enum loop appends enum!'s lines for each enum, in order |
| Generator.Generator.Defines | lib/beefcake/generator.rb:188-190 | the define! loop appends the shell of each message, in order |
| Generator.Generator.Messages | lib/beefcake/generator.rb:201-203 | the message! loop appends the body of each message, in order |
| Generator.Generator.Define | lib/beefcake/generator.rb:175-193 | define! appends a blank line, `class Name`, the shell one level deeper, and `end`, and keeps the depth |
| Generator.Generator.Message | lib/beefcake/generator.rb:195-212 | message! appends a blank line, `class Name`, the body one level deeper, and `end`, and keeps the depth |
| Generator.Generator.Enum | lib/beefcake/generator.rb:214-223 | enum! appends a blank line, `module Name`, the values one level deeper, and `end`, and keeps the depth |
| Generator.Generator.Field | lib/beefcake/generator.rb:225-256 | field! appends exactly one line, the field's declaration at the current depth |
| Generator.Generator.Ns | lib/beefcake/generator.rb:284-294 | ns! appends the block nested in one module per name and keeps the depth |
| Generator.Generator.Module | lib/beefcake/generator.rb:287-293 | the non-empty case of ns!: `module` and the first name, the other names one level deeper, then `end` |
| Generator.Generator.CompileFile | lib/beefcake/generator.rb:263-282 | compile appends the header, the require line, a blank line and the namespaced file body, and keeps the depth |
| Generator.Generator.CompileProto | lib/beefcake/generator.rb:144-152 | a fresh generator compiling one proto file yields the response named after the file, holding the file's text |
| Generator.Generator.Compile | lib/beefcake/generator.rb:143-156 | self.compile returns one response per proto file, in order, with `file_to_generate` and `parameter` ignored |

## Left out

- The wire encoding and decoding of the request and the response, including
  everything `Beefcake::Message` provides. Only the field shapes are
  modelled.
- The `extended` fields of FieldDescriptorProto and DescriptorProto (lines
  68 and 100). The generator never reads them.
- The reflective constant lookup `b.name_for(mod, val)` belongs to the
  Beefcake library, which is not part of this model.
  - In its place is a fixed table from each Type and Label value to its
    constant's name (lines 19-48), as the declarations spell them.
  - A field with neither `type` nor `type_name` would ask that lookup about
    nil. It is excluded by the subset type `Descriptors.Field`.
- `StringIO`, `rewind` and `read`:
  - the buffer is the sequence of lines written;
  - `Output.Content` is the text `read` returns after `rewind`;
  - `Generator.Generator.CompileProto` ties the two together.
- Ruby regular-expression corner cases:
  - the model treats `^` and `$` as anchors of the whole string, which they
    are only for text without a newline;
  - case mapping is ASCII only;
  - names are taken to be ASCII text without newlines.
- Nil descriptors:
  - a message, enum, value or field name is always a string. The model's
    empty string is what interpolation makes of nil;
  - the file name is always a string. Line 150 passes `file.name` to
    `File.basename`, which raises TypeError on nil. The model has no such
    error path: an empty name gives a response named `.pb.rb`;
  - the package is always a string. Line 269 raises on a nil package, so
    the nil branch of line 264 is not modelled;
  - absent repeated fields are empty sequences. The missing `Array()`
    guards at lines 218 and 274 only matter for nil;
  - a nil label or number, which would raise or format oddly in the unseen
    library, is not modelled.
- Exceptions: without an `ensure`, Ruby's `indent` leaves the depth raised
  if the block raises. The model has no exceptions, so every method restores
  the depth.
- File.basename on other platforms: only `/` separates path components.
- Ruby blocks are not first-class here. The blocks the emitters pass are
  the datatype `Layout.Block`. The `else` branch of ns! is the method
  `Generator.Generator.Module`, and the `.each` loops that several emitters
  share are the methods `Enums`, `Defines` and `Messages`.
- Fields.DeclLineRoundTrip: proved only for names and type tokens without a
  comma. The reader splits at commas, so a comma inside a name would be
  ambiguous; the writer itself has no such restriction.
- Fields.FieldDeclRoundTrip: the same comma-free restriction on the field
  name and the type token.
