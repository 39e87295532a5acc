# visgostruct, modelled in Dafny

visgostruct reads Go source files and collects every struct declaration
with its fields. It then draws the structs and their "has-a" relations in
PlantUML, or lists each struct's fields as CSV or TSV. This project models
the core of `main.go` and proves properties of the model:

- **Field records** (module `Structs`). `ParseFile` builds one record per
  field of a struct declaration:
  - `Type` is the field's type text.
  - `HasA` is that text after `strings.Trim` with the cutset `*[]`.
  - `Name` is the field's first name, or its type when the field is embedded.
  - `Tag` is the raw tag literal after `strings.Trim` with the cutset `` ` ``.
  - `Comment` is the texts of the trailing comments concatenated.

  The syntax tree is abstracted as a list of type declarations (`TypeSpec`).
  Each struct declaration carries its parsed fields (`RawField`).
- **Escaping** (module `Escape`).
  - `escapeCsv` quotes a value and doubles its inner quotes.
  - `escapeTsv` turns line breaks and tabs into spaces.
- **Diagram text** (module `Diagram`). `SprintClass` builds the `class` block
  of a struct and its optional `note` block. It is controlled by the four
  flags `--fields`, `--comment`, `--tag` and `--note` (`RenderOptions`).
- **Relations** (module `Relations`). `SprintRelations` emits one `--*` edge
  per distinct referenced known struct, labelled with the count when a
  struct is referred to more than once.
- **Tables** (module `Tabular`). `PrintCsv` and `PrintTsv` write the struct
  name, a header and one row per field. A CSV reader is defined alongside,
  so that the CSV output can be proved to read back to the fields.
- **Selection** (module `Selection`).
  - The merge loop of the action combines the structs of every file into one
    map keyed by name, filtered by `--include` and `--exclude`.
  - The `--root` walk keeps only the structs reachable from the root,
    level by level.

Module `Text` holds the two Go `strings` calls of `main.go`, `Replace` of a
single character and `Trim`, together with the `+=` concatenation of
comment texts and the `%d` rendering of a count. It also holds `Split` and
`Lines`, which `main.go` does not call: they are this model's own readers,
used to state the line and cell shape of the output. Module `Wrappers`
holds the `Option` type, used for the optional tag literal, the optional
`--include` and `--exclude` patterns and the results of the CSV reader. A
missing root is not an `Option`: it is `RootChoice.RootNotFound`.

Loops in the source are methods with loop invariants, proved equal to a
specification function (`SprintClass` to `ClassText`, `PrintCsv` to
`CsvText`, `Merge` to `MergeAll` and so on). The properties are then proved
about those functions as lemmas. Where a loop body is itself a loop, the
inner loop is its own method: `SprintFieldLoop`, `SprintNoteLoop`,
`AppendCsvRows`, `AppendTsvRows`, `MergeFile`, `AppendChildren` and
`VisitLevel`. `StructInformation` and `FieldInformation` are values
(datatypes), because nothing in `main.go` updates a record after
`ParseFile` has built it. The maps the action builds are Dafny `map`s.

Behaviour worth noting:

- `HasA` is trimmed at both ends, not only the leading decorations. For
  example, `[5]Node` gives `5]Node` (`Structs.HasAFixedArray`).
- A tag is trimmed of backticks only. A double-quoted tag literal keeps its
  quotes.
- An inline comment on a field line ends with a line break, and another
  break follows it. The diagram therefore holds an empty line after each
  such field (`Diagram.FieldRows`).
- The TSV output writes the struct name unescaped. Its header is the literal
  `Name\tType\nTag\tComment\n` (see Findings).

## Model

| member | source | states |
|---|---|---|
| Text.Trim | main.go:292 | the result cannot be trimmed further at either end, and it sits in the input with only cutset characters before and after it |
| Text.TrimUnique | main.go:292 | those two properties determine the result: any string that has both is the result of `strings.Trim` |
| Text.TrimAround | main.go:292 | trimming cutset characters around an untrimmable middle gives back exactly that middle |
| Text.ReplaceOneChar | main.go:25 | replacing one character by one character keeps the length and changes exactly the positions holding that character |
| Text.DecimalRoundTrip | main.go:105 | the `%d` text of a count reads back to the count |
| Escape.EscapeCsv | main.go:20-22 | the escaped value starts and ends with a quote and reads back, as one quoted CSV cell, to the original text |
| Escape.ReadQuotedDoubled | main.go:21 | the text with every quote doubled, followed by a closing quote, reads back to the text and leaves what follows |
| Escape.EscapeCsvReadBack | main.go:20-22 | an escaped value followed by anything not starting with a quote reads back to the value and leaves the rest |
| Escape.EscapeTsv | main.go:24-26 | same length; every line break and tab becomes a space and every other character is kept; the result holds neither |
| Escape.EscapeTsvIdempotent | main.go:24-26 | escaping twice is escaping once |
| Structs.DeriveField | main.go:288-307 | `Type` is the type text; `HasA` is untrimmable and padded in `Type` by `*`, `[`, `]` only; `Name` is the first name or else the type; no tag gives an empty tag; a present tag is the literal with backticks removed from both ends only, and has no backtick at either end; `Comment` is the concatenation of the comment texts in order |
| Structs.HasASliceOfPointers | main.go:292 | `[]*Node` refers to `Node` |
| Structs.HasAFixedArray | main.go:292 | `[5]Node` keeps its closing bracket and refers to `5]Node` |
| Structs.HasAMap | main.go:292 | `map[string]Node` is left as written |
| Structs.DeriveFieldsAt | main.go:287-309 | field record `k` is built from parsed field `k` |
| Structs.JoinComments | main.go:301-307 | the comment is the comment texts joined with no separator |
| Structs.ExtractStruct | main.go:284-309 | the struct built for a declaration is its name with the records of its fields, in order |
| Structs.ExtractedStruct | main.go:284-309 | that struct has one record per parsed field, each built from its field, and every record's `HasA` is fixed by its `Type` |
| Structs.StructDecls | main.go:275-283 | only struct declarations are kept, and every struct declaration is kept |
| Structs.ExtractStructs | main.go:261-315 | the extraction loop builds the structs of the struct declarations, in order |
| Structs.DeriveStructsMatch | main.go:275-311 | the structs built correspond one to one, in order, to the struct declarations, each with its name and fields |
| Diagram.SprintField | main.go:63-72 | one field's text: `{field} +Name <Type>`, the tag and comment when inline and non-empty, then a line break |
| Diagram.SprintFieldLoop | main.go:62-73 | the field loop appends every field's text in order |
| Diagram.SprintNote | main.go:79-86 | one note line: `Name:`, then the comment and the tag as enabled, then a line break |
| Diagram.SprintNoteLoop | main.go:78-87 | the note loop appends every field's note line in order |
| Diagram.SprintClass | main.go:55-91 | the method returns exactly the class text of the struct under the four flags |
| Diagram.FieldRows | main.go:62-73 | a field gives one or two lines; exactly one each when comments are off or moved to the note |
| Diagram.NoteRows | main.go:78-87 | one note line per field |
| Diagram.ClassRows | main.go:55-91 | the number of lines, the `class` header first, and `end note` or `}` last |
| Diagram.FieldsTextLines | main.go:62-73 | the field text is the field lines, each ended by a line break |
| Diagram.NotesTextLines | main.go:78-87 | the note text is the note lines, each ended by a line break |
| Diagram.NoteBlockLines | main.go:76-89 | the note block is `note right of` the name, the note lines and `end note`, as lines |
| Diagram.ClassTextIsRows | main.go:55-91 | a struct with fields is drawn as its rows, each ended by a line break |
| Diagram.ClassTextShape | main.go:56-75 | the text is empty exactly when there are no fields; otherwise it starts with the header; with fields off it is the bare `class` block |
| Diagram.ClassTextLines | main.go:55-91 | split at line breaks, the text of a struct with single-line fields is exactly its rows and a final empty string |
| Relations.TallyCounts | main.go:96-102 | a struct is counted exactly when it is known and some field refers to it, and its count is the number of such fields |
| Relations.OccurrencesOfField | main.go:97-101 | every field counts towards the struct it refers to |
| Relations.CountRelations | main.go:96-102 | the counting loop builds that tally |
| Relations.SprintRelation | main.go:104-108 | one edge line, with the quoted count when it exceeds one |
| Relations.TallyEmpty | main.go:96-102 | nothing is counted exactly when no field refers to a known struct |
| Relations.EmitRelations | main.go:103-109 | the emitting loop writes one edge line per entry of the counts, each entry exactly once, in the order it chose |
| Relations.NoEdges | main.go:103-109 | there is no edge line exactly when there are no counts |
| Relations.SprintRelations | main.go:94-111 | the edges are one line per counted struct, each exactly once, in the map's iteration order; the text is empty exactly when no field refers to a known struct |
| Relations.RelationRowsAt | main.go:103-109 | edge line `k` belongs to the `k`-th struct of the iteration order |
| Relations.RelationsTextLines | main.go:103-109 | the edge text is the edge lines, each ended by a line break |
| Relations.RelationLabel | main.go:104-108 | an edge line holds a quote exactly when the count exceeds one, and the label reads back to the count |
| Relations.CountsSum | main.go:96-109 | over any iteration order, the counts add up to the number of fields referring to a known struct |
| Relations.SelfReference | main.go:97-101 | a field referring to its own known struct yields a self edge |
| Tabular.AppendCsvRows | main.go:117-120 | the row loop appends every field's CSV row and a line break, in order |
| Tabular.PrintCsv | main.go:114-122 | the method returns the CSV text: escaped name, header, one escaped row per field |
| Tabular.ReadCsvRow | main.go:118-119 | a field's CSV row reads back to its four cells |
| Tabular.ReadCsvRows | main.go:117-120 | the CSV rows read back to the fields' cells, in order |
| Tabular.CsvRoundTrip | main.go:114-122 | reading the CSV text back gives the struct name and each field's name, type, tag and comment, in order |
| Tabular.AppendTsvRows | main.go:128-131 | the row loop appends every field's TSV row and a line break, in order |
| Tabular.PrintTsv | main.go:125-133 | the method returns the TSV text: name, header, one escaped row per field |
| Tabular.TsvRowCells | main.go:129-130 | a field's TSV row splits on tabs into its four escaped cells and holds no line break |
| Tabular.TsvRowsCells | main.go:128-131 | every TSV row splits into its field's four escaped cells |
| Tabular.TsvLines | main.go:125-133 | split at line breaks, the TSV text is the name, two header lines, the field rows and a final empty string |
| Tabular.TsvHeaderSplitsInTwo | main.go:127 | the header as written is two lines of two cells each |
| Tabular.CorrectedTsvLines | main.go:127 | with the header on one line, the TSV text is the name, one header line and the field rows |
| Tabular.CorrectedHeaderCells | main.go:127 | the one-line header splits into the four column names |
| Selection.MergeFile | main.go:195-203 | the loop over one file's structs stores each admitted struct under its name, in order |
| Selection.Merge | main.go:192-204 | the merge loop gives the map built by writing every admitted struct of every file in order |
| Selection.MergeAllStep | main.go:196-202 | one more struct is stored, replacing the one of its name, unless it is excluded or not included |
| Selection.MergeAllKeys | main.go:192-204 | a name is a key exactly when it is admitted and some struct has it |
| Selection.MergeAllLast | main.go:202 | the struct stored under a name is the last struct of that name |
| Selection.MergeAllKeyedByName | main.go:202 | every struct is stored under its own name |
| Selection.MergeAllIdempotent | main.go:192-204 | merging the merged structs again under the same patterns changes nothing |
| Selection.ReachableStep | main.go:222-226 | a struct referred to by a reachable struct is reachable |
| Selection.ClosedHoldsPath | main.go:215-230 | a set of names holding the root and closed under references holds the end of every reference path from the root |
| Selection.ChildListRefers | main.go:222-227 | the collected children are the known structs the fields refer to, each stored under its name, and no known reference is missed |
| Selection.AppendChildren | main.go:222-227 | the child loop appends those children in field order |
| Selection.Visit | main.go:221-227 | keeping a struct adds it under its name, and every struct it refers to is among the collected children |
| Selection.SkipKept | main.go:218-220 | skipping an already kept struct keeps the level invariant |
| Selection.VisitAt | main.go:218-227 | visiting a struct not yet kept keeps the level invariant |
| Selection.VisitLevel | main.go:216-229 | after a level every struct of it is kept; every kept struct is known, unchanged and reachable; references out of kept structs land on kept structs or the next level; a non-empty next level means something new was kept |
| Selection.SelectRoot | main.go:207-232 | no root keeps every struct; an unknown root is the fatal error; otherwise the result holds the root, only unchanged known structs, exactly the reachable ones, and is closed under references |

## Left out

- The command line, reading the source files and parsing Go: the parser's output is the input here. A type declaration arrives as a `TypeSpec`, a field as its names, type text, tag literal and comment texts. The declarations come in the order `ast.Inspect` visits them.
- Compiling and matching regular expressions: a pattern is a function from a name to a boolean. `regexp.MustCompile` panicking on a bad pattern is not modelled.
- The order of Go's map iteration: `SprintRelations` picks the next struct arbitrarily, and its ghost `order` names the order taken. The printing loops of the action (main.go:234-254) iterate a map, write to standard output and add the `@startuml{}` / `left to right direction` / `@enduml` lines. They are output and are not modelled. Neither is `PrettyPrint`, which is a debugging printer.
- `log.Fatal` and `os.Exit` for a missing root become the result `RootNotFound`.
- Pointer identity of the struct records: they are values, because `main.go` never updates one after building it.
- Selection.SelectRoot: requires the map to store every struct under its own name. Every map the merge builds does so (`Selection.MergeAllKeyedByName`).
- Relations.RelationLabel: requires names without a double quote. Go identifiers never hold one.
- Diagram.ClassTextLines: requires the name, types, tags and comments to be free of line breaks. A type written across several lines breaks that.
- Tabular.TsvLines: requires a name without a line break, which holds for Go identifiers.
- Escape.EscapeCsvReadBack: requires the text after a cell not to start with a quote. Every separator the CSV output uses is a comma or a line break.
- Relation counts are unbounded naturals. Go's `int` cannot overflow for a count of fields in practice.
- `strings.Trim` and `strings.Replace` work on characters here, not on UTF-8 encoded runes of bytes.

## Findings

| source | as written | input that shows it | evidently intended | confidence | as-written member | corrected member |
|---|---|---|---|---|---|---|
| main.go:127 | the TSV header is `Name\tType\nTag\tComment\n`: a line break where a tab belongs | any struct, e.g. `type P struct{ A int }`: the header reads as two rows of two columns, `Name Type` and `Tag Comment`, above rows of four | one header row `Name\tType\tTag\tComment`, like the CSV header | high (not executed) | Tabular.TsvHeaderSplitsInTwo | Tabular.CorrectedHeaderCells |

`Tabular.PrintTsv` keeps the header as written, because it models the
source. `Tabular.CorrectedTsvText` is the text with the intended header.
`Tabular.CorrectedTsvLines` proves that it reads as the name, one header
line of four columns, and one row per field.
