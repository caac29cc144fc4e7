# dotenv, modelled in Dafny

This project models the core of `github.com/rickferrdev/dotenv`, a Go package
that loads `KEY=VALUE` files into the process environment and maps the
environment to and from tagged structs. It covers four parts:

- **`quotes`** (utils.go), the value normaliser. A value in matching quotes
  is returned verbatim. Otherwise the value loses one unmatched opening
  quote, is cut at the first `#`, and is trimmed of white space.
- **`Collect`** (dotenv.go). It reads the files of `FilenameVariables` in
  order. In each file it strips the `export ` prefix from a line, skips
  blank lines, comment lines and lines without `=`, and sets each
  `KEY=quotes(rest)` with `os.Setenv`. Later lines and later files win.
- **`Unmarshal`** (dotenv.go). It fills the exported, tagged fields of a
  struct behind a pointer from the environment, in declaration order. It
  stops at the first value `setField` rejects and does not undo earlier
  fields.
- **`Marshal`** (dotenv.go). It writes one `KEY=VALUE\n` line per tagged
  field, wrapping a value that holds a space in double quotes.

What the environment store, reflection and file reading become:

- The environment is an `Env` object holding a `map<string, string>`.
  `os.Setenv` refuses an empty key, a key holding `=` or NUL, and a value
  holding NUL, as on Unix. In that case the store is unchanged. `Collect`
  ignores the error.
- Reflection is replaced by a `Struct` object. Per field, in declaration
  order, it holds the name, the `env` tag (empty when there is none) and
  whether the field is exported. It also holds the current field values.
- `Collect` takes one `Option<string>` per file name. `None` stands for a
  failed `os.ReadFile`.

Each operation is written as the code is: a loop over state (`Collect`,
`Unmarshal`, `Marshal`) is a method. Each method is proved equal to a pure
specification function (`LoadFiles`, `FillFrom`, `Encode`), and lemmas
prove what the source promises about those functions.

Modules, leaf first:

- `Wrappers`: `Option` and `Result`.
- `GoStrings`: the parts of Go's `strings` and `unicode` used here.
- `Strconv`: the base-10 int and bool conversions.
- `Environment`: the environment store.
- `Records`: field descriptors, typed values, `setField` and `%v`.
- `Utils`: `quotes`.
- `Dotenv`: `Collect`.
- `Unmarshaling`: `Unmarshal`.
- `Marshaling`: `Marshal`.
- `RoundTrip`: what survives Marshal → Collect → Unmarshal.
- `Examples`: the package's own test scenarios.

Two details of the code the model keeps exactly:

- `Marshal` quotes a value only when it holds the space character `' '`
  (`strings.Contains(value, " ")`). Any other white space is not enough.
- `export` is stripped only when followed by a space
  (`strings.HasPrefix(line, "export ")`). A bare `export` token is not
  stripped.

## Model

| member | source | states |
|---|---|---|
| Utils.Quotes | utils.go:13-29 | an empty input gives an empty result; the result is always a contiguous substring of the input |
| Utils.Unquoted | utils.go:27-28 | the comment-cut, trimmed value holds no `#`, neither starts nor ends with white space, and is a substring of its input |
| Utils.QuotesMatched | utils.go:18-23 | with a matching close quote the result never holds the quote character, and quote + result + quote is a prefix of the input |
| Utils.QuotesMatchedContent | utils.go:18-23 | conversely, for any quote-free content the result of `q content q rest` is exactly `content`, untrimmed and with any `#` kept |
| Utils.QuotesUnterminated | utils.go:24-27 | an unmatched opening quote yields the unquoted path applied to the text after it |
| Utils.QuotesUnquotedShape | utils.go:24-28 | off the matched-quote path the result holds no `#` and has no leading or trailing white space |
| Utils.QuotesLeadingSpace | utils.go:18-19 | a value starting with white space is never quote-stripped: the result is TrimSpace of the text before the first `#` |
| Utils.QuotesDoubleQuoted | test/dotenv_test.go:67 | `"quoted value"` yields `quoted value` |
| Utils.QuotesSingleQuoted | test/dotenv_test.go:68 | `'single quoted value'` yields `single quoted value` |
| Utils.QuotesInlineComment | test/dotenv_test.go:69 | `"secret" # inline comment` yields `secret` |
| Utils.QuotesPlain | test/dotenv_test.go:66 | `123` yields `123` |
| GoStrings.ContainsIn | dotenv.go:126 | Contains(s, c) holds if and only if c occurs in s |
| GoStrings.ByteLen | dotenv.go:31 | the UTF-8 length is at least the rune count, and is at most 1 exactly for the empty text or a single ASCII character |
| GoStrings.Cut | dotenv.go:45 | found iff the separator occurs; `before` is separator-free; when found the input is before + sep + after, otherwise before is the whole input |
| GoStrings.CutAt | dotenv.go:45 | Cut splits `a sep b` at the first separator when `a` holds none |
| GoStrings.Split | dotenv.go:35 | at least one piece, every piece separator-free, and joining the pieces gives back the input |
| GoStrings.SplitJoin | dotenv.go:35 | Split inverts Join on separator-free pieces |
| GoStrings.TrimSpace | dotenv.go:38 | the result is the input minus an all-white-space prefix and suffix, and neither starts nor ends with white space |
| GoStrings.TrimSpaceInside | dotenv.go:38 | the trimmed text is a substring of the input and holds no character the input lacks |
| GoStrings.TrimSpaceNoop | utils.go:28 | a text without surrounding white space is left unchanged |
| Strconv.ScanUint | dotenv.go:91 | the digit loop of strconv.ParseUint, left to right: a success means every character was a digit and gives their value, at most 2^64 - 1 |
| Strconv.ParseUint | dotenv.go:91 | a success means non-empty, all-digit text and gives its value, at most 2^64 - 1 |
| Strconv.ParseInt | dotenv.go:91 | a success is a 64-bit value, and the text is a digit, or a sign followed by at least one more character, then only digits; empty text is a syntax error |
| Strconv.ScanDigits | dotenv.go:91 | on all-digit text the scan fails exactly when the value passes 2^64 - 1, with a range error, and otherwise gives the value |
| Strconv.ParseIntDigits | dotenv.go:91 | an optional sign and digits parse to their signed value when it fits in 64 bits, and to a range error otherwise |
| Strconv.ParseIntOverflowFirst | dotenv.go:91 | an optional sign, then a run of digits past 2^64 - 1, is a range error whatever follows it, a bad character included |
| Strconv.ParseIntSyntax | dotenv.go:91 | after an optional sign, a non-digit following a run of digits that fits is a syntax error (a first character `+` or `-` is the sign itself) |
| Strconv.ParseIntSignAlone | dotenv.go:91 | a lone `+` or `-` is a syntax error |
| Strconv.Decimal | dotenv.go:124 | the printed digits are non-empty, all decimal, without a leading zero |
| Strconv.DecimalValue | dotenv.go:124 | the digits printed denote the number printed |
| Strconv.ParseFormatInt | dotenv.go:91 | ParseInt reads back every 64-bit integer %v prints |
| Strconv.ParseBool | dotenv.go:91 | true exactly for 1 t T TRUE true True, false exactly for 0 f F FALSE false False, a syntax error otherwise |
| Strconv.ParseFormatBool | dotenv.go:91 | ParseBool reads back the bool %v prints |
| Records.SetField | dotenv.go:91 | a success has the field's type and fits it; a string field takes the text verbatim; empty text fails exactly for non-string fields |
| Records.Format | dotenv.go:124 | no contract of its own: %v of a string, int or bool; SetFieldFormat states that setField reads it back |
| Records.SetFieldFormat | dotenv.go:91 | setField reads back the %v text of any well-typed value of the field's type |
| Environment.Setenv | dotenv.go:52 | an accepted assignment binds the key to the value; every other key is unchanged; a refused one changes nothing |
| Environment.Getenv | dotenv.go:86 | a set variable reads as its value; an absent one reads as the empty string |
| Environment.GetenvSetenv | dotenv.go:52 | after os.Setenv the key reads back as the new value when accepted, as before when refused, and every other key reads as before |
| Environment.Env.Set | dotenv.go:52 | reports whether the assignment is accepted and leaves the store as Setenv describes |
| Environment.Env.Get | dotenv.go:86 | the bound value, or the empty string when absent |
| Dotenv.StripExport | dotenv.go:36-39 | a line without the `export ` prefix is kept as it is; one with it becomes the text after `export` with its surrounding white space, and only that, removed |
| Dotenv.ParseLine | dotenv.go:36-50 | the key of a parsed line never holds `=` |
| Dotenv.ParseLineSome | dotenv.go:41-48 | a line yields an assignment iff, after export-stripping, it is non-empty, does not start with `#` and holds `=` |
| Dotenv.ParseLineEntry | dotenv.go:45-50 | the key is the exact untrimmed text before the first `=`, and the value is quotes of the rest |
| Dotenv.ParseLineOf | dotenv.go:45-50 | conversely a line `key=rest` with an `=`-free key not starting with `#` yields (key, quotes(rest)) |
| Dotenv.ParseLineNoExport | dotenv.go:36-45 | a line without the `export ` prefix is not trimmed: its key followed by `=` starts the line |
| Dotenv.StripExportBlank | dotenv.go:36-38 | `export ` followed by a text without surrounding white space strips to that text |
| Dotenv.ParseLineExport | dotenv.go:36-50 | `export KEY=rest` assigns quotes(rest) to KEY |
| Dotenv.LoadLine | dotenv.go:45-52 | a line that yields no assignment leaves the environment unchanged |
| Dotenv.LoadLineFrame | dotenv.go:50-52 | a line changes no variable other than the one it sets |
| Dotenv.LoadLineSets | dotenv.go:50-52 | a line that sets KEY stores its quoted value there |
| Dotenv.LoadLinesAppend | dotenv.go:35 | loading two runs of lines is loading the first, then the second |
| Dotenv.LoadLinesLastWins | dotenv.go:35-52 | within a file, a key's final value comes from the last line that sets it |
| Dotenv.LoadLinesUntouched | dotenv.go:35-52 | a key no line sets keeps its binding or its absence |
| Dotenv.LoadLines | dotenv.go:35-53 | no contract of its own: the lines of one file applied in order; LoadLinesAppend, LoadLinesLastWins and LoadLinesUntouched state its behaviour |
| Dotenv.LoadFile | dotenv.go:26-53 | a failed read or a file of at most one byte leaves the environment unchanged |
| Dotenv.LoadFiles | dotenv.go:25-54 | when no file is read line by line the environment is unchanged |
| Dotenv.LoadFileSkipped | dotenv.go:26-33 | a failed read, an empty file or a one-byte file leaves the environment unchanged |
| Dotenv.LoadFilesLines | dotenv.go:25-35 | loading the files one after another is loading all their lines in sequence |
| Dotenv.CollectLastWins | dotenv.go:25-52 | across files in list order and lines in file order, the last line that sets a key decides its value |
| Dotenv.CollectUntouched | dotenv.go:25-52 | a key no line of any file sets keeps its binding or its absence |
| Dotenv.Collect | dotenv.go:24-55 | the new environment is the old one with every file loaded in order |
| Dotenv.SetLines | dotenv.go:35-53 | the new environment is the old one with the file's lines applied in order |
| Unmarshaling.Target | dotenv.go:60-69 | a struct is filled only when the argument is a non-nil pointer to it, and always then |
| Unmarshaling.TargetError | dotenv.go:62-69 | an error is reported before any field exactly when the argument is not a non-nil pointer to a struct |
| Unmarshaling.Visited | dotenv.go:77-89 | no contract of its own: a field is exported, tagged and its variable is set and non-empty, the only fields setField is called on; FillFromNoFailure states that every other field keeps its value |
| Unmarshaling.FillFrom | dotenv.go:73-94 | the loop from field `i` on keeps the field count, leaves every field before `i` as it was, and reports only errors naming a field |
| Unmarshaling.FillFromNoFailure | dotenv.go:73-94 | with no failing field, no error is reported; each visited field takes setField's value, and an unexported or untagged field, or one whose variable is unset or empty, keeps its value |
| Unmarshaling.FillFromFirstFailure | dotenv.go:91-93 | at the first failing field the error names it; earlier fields are filled; it and every later field are untouched |
| Unmarshaling.Unmarshal | dotenv.go:59-97 | a bad target gives its error and modifies nothing; otherwise the struct's new values and the error are those of the field-filling loop |
| Marshaling.Source | dotenv.go:102-110 | the struct read is the argument itself or the struct a non-nil pointer designates, and one is found in both cases |
| Marshaling.QuoteSpaced | dotenv.go:126-128 | no contract of its own: a text that holds a space, as Contains finds it, is wrapped in double quotes, any other text is kept; QuoteSpacedShape states this |
| Marshaling.QuoteSpacedShape | dotenv.go:126-128 | a text holding the space character is wrapped in double quotes; any other text, other white space included, is written as it is |
| Marshaling.LineOf | dotenv.go:130 | no contract of its own: `tag=quoted-value`; LineRoundTrip states that the line parser reads it back as the tag and the %v text |
| Marshaling.EncodePrefix | dotenv.go:112-131 | no contract of its own: the builder after the first n fields; EncodeStep, EncodeFailureSticks and EncodeFields's invariant state its behaviour |
| Marshaling.Encode | dotenv.go:112-133 | no contract of its own: the builder after every field; EncodeAllExported and EncodeFirstUnexported state its two outcomes |
| Marshaling.Marshal | dotenv.go:101-134 | a non-struct, non-pointer-to-struct argument is an error; otherwise the result is the encoding of the struct's fields |
| Marshaling.EncodeFields | dotenv.go:112-133 | the loop over the fields produces the encoding of the struct's fields |
| Marshaling.EncodeStep | dotenv.go:119-130 | an exported tagged field appends `tag=quoted-value\n` to the output |
| Marshaling.EncodeFailureSticks | dotenv.go:124 | once a field fails, later fields change nothing |
| Marshaling.TaggedLinesOrder | dotenv.go:115-131 | one line per tagged field and no other; the tagged field with k tagged fields before it owns line k |
| Marshaling.EncodeFirstUnexported | dotenv.go:119-124 | Marshal fails exactly at the first tagged field that is unexported, naming it |
| Marshaling.EncodeAllExported | dotenv.go:115-133 | when every tagged field is exported, the output is the tagged fields' lines in order, each ended by a newline |
| Marshaling.SplitTerminated | dotenv.go:130 | splitting newline-terminated, newline-free lines at `\n` gives the lines plus a final empty piece |
| RoundTrip.QuoteSpacedRoundTrip | dotenv.go:126-128 | quotes undoes Marshal's quoting for a `"`-free value that holds a space, or has no `#`, no surrounding white space and no leading `'` |
| RoundTrip.QuotedRoundTrip | utils.go:18-23 | quotes of a `"`-free text in double quotes is the text |
| RoundTrip.PlainRoundTrip | utils.go:27-28 | quotes leaves a plain `"`-free text unchanged |
| RoundTrip.QuoteSpacedLosesComment | dotenv.go:126-128 | a value holding `#` and no space does not survive: `a#b` comes back as `a` |
| RoundTrip.LineRoundTrip | dotenv.go:130 | for a tag that is non-empty, free of `=`, newline and NUL and starts with neither `#` nor `export `, and a %v text free of newline, NUL and `"` that holds a space or is plain (no `#`, no surrounding white space, no leading `'`), Collect's line parser reads the Marshal line back as the tag and the text |
| RoundTrip.LoadAssignments | dotenv.go:35-52 | lines setting pairwise distinct keys leave each key at its line's value and every other variable alone |
| RoundTrip.LoadTerminated | dotenv.go:31-35 | a file of newline-free lines, each ended by a newline, loads as those lines, an empty last line included |
| RoundTrip.MarshalThenCollect | dotenv.go:115-131 | for a round-trippable struct (every tagged field exported; distinct keys that are non-empty, free of `=`, newline and NUL, do not start with `#` or `export `; every int value within 64 bits; every %v text free of newline, NUL and `"`, and either holding a space or plain: no `#`, no surrounding white space, no leading `'`), Collect on Marshal's output sets each tagged field's key to its %v text, and leaves every other variable alone |
| RoundTrip.MarshalCollectUnmarshal | dotenv.go:73-94 | for a round-trippable struct (every tagged field exported; distinct keys that are non-empty, free of `=`, newline and NUL, do not start with `#` or `export `; every int value within 64 bits; every %v text free of newline, NUL and `"`, and either holding a space or plain: no `#`, no surrounding white space, no leading `'`), Unmarshal into a zero struct from that environment succeeds, restoring every tagged field; untagged fields stay zero |
| RoundTrip.FormatTextOk | dotenv.go:124 | the %v text of any int or bool meets the conditions Collect needs to read a value back unchanged |
| RoundTrip.MarshalCollectUnmarshalScalars | dotenv.go:73-94 | for a struct whose tagged fields are exported int and bool fields with usable, distinct keys, the round trip onto a zero struct succeeds and restores every tagged field, with no condition on the values |
| Examples.LoadSingleLine | dotenv.go:35 | a newline-free file of two or more characters loads as its single line |
| Examples.CollectExportLine | test/dotenv_test.go:27 | a file `export KEY=VALUE` sets KEY to quotes(VALUE) |
| Examples.CollectSecondFileWins | dotenv.go:25 | of two files setting the same key, the second one's value wins |
| Examples.UnmarshalBadPort | test/dotenv_test.go:130-134 | for any host text, a port text that starts with neither a digit nor a sign, such as `not-a-number`, stops Unmarshal at Port with a syntax error, after Host is set |
| Examples.MarshalConfig | test/dotenv_test.go:139-172 | the test configuration, without its float field, encodes to its three tagged lines in order; the untagged field does not appear |

## Left out

- File reading (`os.ReadFile`) is not modelled. `Collect` receives the
  contents, or `None`, for each name. `FilenameVariables` is only the
  default list of names.
- The process-wide environment is a single `Env` object, so concurrency
  and parallel writers are not modelled.
- Go reflection (`reflect.ValueOf`, `Elem`, `Kind`, `Tag.Get`, `CanSet`,
  `Interface`) is replaced by explicit field descriptors. `CanSet` is taken
  as "exported", which is what it means for a struct reached through a
  pointer.
- Records.SetField: the body of `setField` is not part of this model. It
  is given strconv's conventions for string, int (64 bits) and bool fields.
- Float fields, other integer widths and unsigned integers are not
  modelled, for `setField` or for `%v`. Floating-point parsing and
  printing are out of scope, including the `RateLimit` field of the tests.
- `%v` is modelled for string, int and bool only. An unsupported field type
  cannot be expressed.
- Strconv.ParseInt keeps only the error kind (syntax or range), not the
  message or the offending text. Error messages in general are reduced to
  constructors.
- Marshaling.Marshal: reading an unexported field through `Interface()`
  panics in Go. Here that is a `Failure(UnexportedField(name))` result.
- Environment.Setenv follows Unix validation of `os.Setenv`. Other
  platforms are not modelled.
- Text is a sequence of Unicode scalar values, so input that is not valid
  UTF-8 is not modelled. `ByteLen` recovers Go's byte length for the
  one-byte check.
- The `auto` package's `init` hook, which only calls `Collect`, is not part
  of this model.
- `Collect`'s inner loop becomes the method `SetLines`; `Marshal`'s field
  loop becomes the method `EncodeFields`, called after the argument check.
  State changes and order are the same.
