# xversionkeys: key table reader and C++ header generator

`contrib/devtools/xversionkeys.py` reads the key table of the extended version
message (`xversion`). The table is a sequence of `KEY` definitions, each with a
key type tag, a name, a 16-bit prefix, a 16-bit suffix and a value type. The
script checks every definition, rejects duplicate names, and prints a C++
header with these parts:

- an enum of the keys, whose constants are `(prefix << 16) | suffix`;
- a map from keys to names;
- an enum of the value types used;
- a map from keys to value types;
- the key type enum;
- a map from keys to key types.

This project models it as follows:

- `Keys` (keys.dfy) holds the record and the table. It also holds the closed
  sets `keyTypes` and `valueTypes`, the invariant every table from the reader
  satisfies, and the combined value `(prefix << 16) | suffix`. The combined
  value is computed with Python's unbounded shift and bitwise or, written
  out bit by bit.
- `Literals` (literals.dfy) holds `int(s, 0)` for the literal forms a table
  uses, and `%x` formatting with a fixed width.
- `Ordering` (ordering.dfy) holds Python's string `<` and `sorted` of a finite
  set of strings.
- `Reader` (reader.dfy) holds `readKEY` as the function `ReadKey`. It holds
  `readTable` twice: as the specification function `ReadTableFrom`/`Parse`,
  and as the `while` loop `ReadTable` proved equal to it. The shared token
  iterator is the token sequence plus an index; a reader returns the index
  after its last token. `ReaderFacts` holds what every successful parse
  satisfies.
- `Emitter` (emitter.dfy) holds `writeTableCPPH` as the lines it prints
  between its fixed preamble and trailer. Each line is one `print` argument;
  `print` adds the newline. `EmitterFacts` proves the properties of the
  blocks.
- `Pipeline` (pipeline.dfy) holds the main line `writeTableCPPH(stdout,
  readTable(stdin))` over tokens. It writes lists of records out as `KEY`
  definitions and proves how those parse, including that the order of the
  definitions does not change the output.
- `Scenarios` (scenarios.dfy) holds concrete inputs: range limits, the order
  of the checks, and a duplicate name.

Where the source's behaviour is worth noting:

- A `KEY` definition that ends early fails. `readKEY` calls `next`, which
  raises `StopIteration`, and that call is not inside the `try` around the
  command read (lines 44-47). The exception therefore leaves `readTable`
  instead of ending the loop. The model gives this the error `EndOfTokens`.
- The unknown key type message (line 23) formats the builtin `type`, not the
  tag that was read. So the model's `UnknownKeyType` error has no payload.
- The name-lookup block (line 84) maps each key to its quoted name.

## Model

| member | source | states |
|---|---|---|
| Keys.CombinedValue | contrib/devtools/xversionkeys.py:76 | for 16-bit prefix and suffix, `(prefix << 16) \| suffix` equals `prefix * 65536 + suffix` and is below 2^32 |
| Keys.CombinedInjective | contrib/devtools/xversionkeys.py:76 | two keys with 16-bit fields get the same combined value only if their prefixes and their suffixes are equal |
| Keys.BitOrShifted | contrib/devtools/xversionkeys.py:76 | or-ing a value below 2^k into a number shifted left by k bits is addition |
| Literals.HexDigitsValue | contrib/devtools/xversionkeys.py:76 | `%0wx` of a value below 16^w is w hexadecimal digits whose value is that number |
| Literals.HexDigitsLowerCase | contrib/devtools/xversionkeys.py:76 | every digit `%x` writes is a decimal digit or a lower-case letter `a` to `f` |
| Literals.HexChar | contrib/devtools/xversionkeys.py:76 | a digit value is written as a hexadecimal digit that reads back as that value (Literals.HexDigitsLowerCase shows it is lower case) |
| Literals.HexLiteralRoundTrip | contrib/devtools/xversionkeys.py:19-20 | `int("0x" + digits, 0)` of a value's w hexadecimal digits gives that value back |
| Ordering.LessTotal | contrib/devtools/xversionkeys.py:74 | Python's string order compares any two different strings |
| Ordering.LessTransitive | contrib/devtools/xversionkeys.py:74 | Python's string order is transitive |
| Ordering.SortedSet | contrib/devtools/xversionkeys.py:74 | `sorted` of a set of strings is strictly ascending and holds exactly the set's elements, each once |
| Ordering.SortedSetUnique | contrib/devtools/xversionkeys.py:74 | any strictly ascending listing of exactly a set's elements is `sorted` of that set |
| Reader.ReadKey | contrib/devtools/xversionkeys.py:16-35 | all five fields are read before any check. Each literal is converted when it is read, so the first literal that does not convert is the error, and running out of tokens is reported only when a field is missing. The result is Ok exactly when the key type is in `keyTypes`, the value type is in `valueTypes`, and both numbers are in 0..0xffff. It then holds the record named by the second token and has consumed exactly five tokens. The checks run in the order key type, value type, prefix, suffix: the first that fails gives the error, and each error implies that the earlier checks passed |
| Reader.ReadTableFrom | contrib/devtools/xversionkeys.py:39-55 | every table returned is valid and extends the table it started from without overwriting any entry. A `KEY` record that `readKEY` rejects aborts the whole parse with that error: no recovery and no partial table |
| Reader.Parse | contrib/devtools/xversionkeys.py:39-55 | every table `readTable` returns is valid: each entry is filed under its own name and passed the checks of `readKEY` |
| Reader.ReadTable | contrib/devtools/xversionkeys.py:39-55 | the `while True` loop returns exactly what `Parse` specifies, and a valid table on success |
| ReaderFacts.ParseStep | contrib/devtools/xversionkeys.py:45-55 | each step of a successful parse reads `KEY` and then five fields, under a name not yet in the table |
| ReaderFacts.ReadRecordStep | contrib/devtools/xversionkeys.py:52-55 | a record read after `KEY` is rejected as a duplicate when its name is taken, and otherwise filed before reading on |
| ReaderFacts.ParseOnlyKeyCommands | contrib/devtools/xversionkeys.py:43-52 | a successful parse consumed whole six-token definitions, each introduced by `KEY` |
| ReaderFacts.ParseKeysAreNamesRead | contrib/devtools/xversionkeys.py:52-55 | after a successful parse, no name was read twice, and the table's keys are exactly the names read |
| ReaderFacts.UnknownCommandFails | contrib/devtools/xversionkeys.py:49-50 | a command token other than `KEY` fails with that token |
| Emitter.PadLeft | contrib/devtools/xversionkeys.py:76 | `%*s` right-justifies: the width is at least w, the text ends the field, and spaces fill the rest |
| Emitter.KeyOrder | contrib/devtools/xversionkeys.py:74 | `sorted(table.keys())` lists every key exactly once, in ascending order |
| Emitter.KeyLines | contrib/devtools/xversionkeys.py:74-77 | a per-key block has one line per listed key, line i being that key's line |
| Emitter.ValueTypeLines | contrib/devtools/xversionkeys.py:91-92 | one `xvt_` line per listed value type, in order |
| Emitter.KeyTypeEnumLines | contrib/devtools/xversionkeys.py:105-106 | one line per key type tag, line i being four spaces, the enumerator `keyTypes` gives tag i, and a comma |
| EmitterFacts.PerKeyBlockAnySort | contrib/devtools/xversionkeys.py:74 | any ascending listing of the keys gives the same block, so a per-key block depends on the table alone |
| EmitterFacts.ConstantHexValue | contrib/devtools/xversionkeys.py:76 | a key's `%016x` constant is sixteen hexadecimal digits that read back as `prefix * 65536 + suffix` |
| EmitterFacts.ConstantHexInjective | contrib/devtools/xversionkeys.py:76 | two records get the same constant exactly when their prefixes and suffixes agree |
| EmitterFacts.ValueTypeBlock | contrib/devtools/xversionkeys.py:90-92 | the value type enum lists, in ascending order, exactly the value types some key uses, each once. All of them are in `valueTypes`, so there are at most two |
| EmitterFacts.KeyTypeBlockFixed | contrib/devtools/xversionkeys.py:104-107 | the key type enum is always `initial` then `changeable`, whatever the table holds |
| EmitterFacts.HeaderLength | contrib/devtools/xversionkeys.py:72-114 | the six blocks have four lines per key, one per distinct value type, and fourteen fixed lines |
| Keys.KeyTypeName | contrib/devtools/xversionkeys.py:10 | `keyTypes[tag]`, defined only for the two tags; its values are pinned down by EmitterFacts.KeyTypeBlockFixed |
| Keys.ValidRecord | contrib/devtools/xversionkeys.py:22-29 | the four checks of `readKEY`; Reader.ReadKey proves a record is returned exactly when they pass |
| Keys.ValidTable | contrib/devtools/xversionkeys.py:53-55 | each entry filed under its own name and valid; Reader.Parse and Reader.ReadTable prove every table read satisfies it |
| Keys.ShiftLeft | contrib/devtools/xversionkeys.py:76 | `prefix << 16` on unbounded integers; its value is given by Keys.CombinedValue |
| Keys.BitOr | contrib/devtools/xversionkeys.py:76 | `\|` on unbounded non-negative integers, bit by bit; Keys.BitOrShifted proves or-ing into a shifted value adds |
| Keys.Combined | contrib/devtools/xversionkeys.py:76 | `(prefix << 16) \| suffix`; Keys.CombinedValue gives its value and bound, Keys.CombinedInjective its injectivity |
| Literals.ParseUnsigned | contrib/devtools/xversionkeys.py:19-20 | base-0 prefixes and the leading-zero rule of `int(s, 0)`; Literals.HexLiteralRoundTrip and the Scenarios literal lemmas state its results |
| Literals.ParseInt | contrib/devtools/xversionkeys.py:19-20 | `int(s, 0)` with an optional sign; Literals.HexLiteralRoundTrip proves it inverts the hexadecimal writer |
| Literals.HexDigits | contrib/devtools/xversionkeys.py:76 | the digits of `%0wx`; Literals.HexDigitsValue gives their count and value |
| Ordering.Less | contrib/devtools/xversionkeys.py:74 | Python's `<` on strings, by code point with a proper prefix first; Ordering.LessIrreflexive, LessAsymmetric, LessTransitive and LessTotal make it a strict total order |
| Ordering.LessIrreflexive | contrib/devtools/xversionkeys.py:74 | no string is below itself |
| Ordering.LessAsymmetric | contrib/devtools/xversionkeys.py:74 | no two strings are each below the other |
| Emitter.ConstantHex | contrib/devtools/xversionkeys.py:76 | the `%016x` digits of a key's combined value; EmitterFacts.ConstantHexValue and ConstantHexInjective state their length, value and injectivity |
| Emitter.KeyLine | contrib/devtools/xversionkeys.py:76 | the line each per-key block prints for a record, with the `%40s`/`%42s` fields of lines 76, 84, 100 and 113 as Emitter.PadLeft |
| Emitter.KeyBlockLines | contrib/devtools/xversionkeys.py:73-78 | a per-key block: opening line, one line per key in sorted order, closing line; EmitterFacts.PerKeyBlockAnySort proves it depends on the table alone |
| Emitter.ValueTypeSet | contrib/devtools/xversionkeys.py:90 | `set(x["valtype"] for x in table.values())`; EmitterFacts.ValueTypeBlock states its members |
| Emitter.ValueTypeOrder | contrib/devtools/xversionkeys.py:91 | `sorted(valtypes)`; EmitterFacts.ValueTypeBlock proves it sorted, exactly the used value types, at most two |
| Emitter.ValueTypeEnum | contrib/devtools/xversionkeys.py:89-93 | the value type enum block; its lines are Emitter.ValueTypeLines of EmitterFacts.ValueTypeBlock's listing |
| Emitter.KeyTypeEnum | contrib/devtools/xversionkeys.py:104-107 | the key type enum block; EmitterFacts.KeyTypeBlockFixed gives its four lines |
| Emitter.Header | contrib/devtools/xversionkeys.py:72-114 | the six blocks in print order; EmitterFacts.HeaderLength gives its size and Pipeline.ParseOrderIndependent its independence from input order |
| Pipeline.Generate | contrib/devtools/xversionkeys.py:123-125 | a header is produced exactly when `readTable` succeeds; otherwise the parse's error aborts the run |
| Pipeline.EncodeRecord | contrib/devtools/xversionkeys.py:16-21 | a record written as a definition is six tokens: `KEY`, the key type, the name, two literals and the value type |
| Pipeline.EncodeRecordFields | contrib/devtools/xversionkeys.py:16-21 | the two literals of a definition convert back to the record's prefix and suffix |
| Pipeline.HexLiteralFour | contrib/devtools/xversionkeys.py:19-20 | a 16-bit field written as `0x` and four hexadecimal digits converts back to that field |
| Pipeline.Encode | contrib/devtools/xversionkeys.py:43-52 | n records written out are 6n tokens |
| Pipeline.TableOfContents | contrib/devtools/xversionkeys.py:53-55 | with distinct names, the table of a list of records holds exactly their names, each mapped to its record |
| Pipeline.EncodeAt | contrib/devtools/xversionkeys.py:16-21 | the six tokens from 6i on are the definition of record i |
| Pipeline.ReadKeyOfFields | contrib/devtools/xversionkeys.py:16-35 | five fields that spell out a valid record are read back as that record |
| Pipeline.ReadKeyPrefix | contrib/devtools/xversionkeys.py:16-21 | `readKEY` looks at no token after the five it reads |
| Pipeline.ReadEncodedRecord | contrib/devtools/xversionkeys.py:16-35 | reading the definition of a valid record gives that record back and moves on by six tokens |
| Pipeline.ReadEncodedStep | contrib/devtools/xversionkeys.py:49-55 | reading a definition either rejects its name as a duplicate or files the record and goes on |
| Pipeline.FreshStep | contrib/devtools/xversionkeys.py:53-55 | filing a fresh record keeps the rest of the names fresh and leaves the final table the same |
| Pipeline.ReadEncodedFrom | contrib/devtools/xversionkeys.py:43-55 | reading definitions into a table fails with a duplicate key when a name repeats, and otherwise adds exactly those records |
| Pipeline.ParseEncodedThen | contrib/devtools/xversionkeys.py:43-55 | definitions followed by any tokens fail with a duplicate key when two names are equal, and otherwise continue with exactly their table |
| Pipeline.ParseEncoded | contrib/devtools/xversionkeys.py:39-55 | the definitions of valid records parse exactly when their names are distinct, into the table of those records |
| Pipeline.UnknownCommandAfterRecords | contrib/devtools/xversionkeys.py:49-50 | after valid definitions, a command token other than `KEY` fails with that token |
| Pipeline.RecordErrorAfterRecords | contrib/devtools/xversionkeys.py:16-29 | after valid definitions, a `KEY` definition that `readKEY` rejects stops the parse with exactly that error |
| Pipeline.TruncatedRecordFails | contrib/devtools/xversionkeys.py:17-21 | input ending inside a definition fails at the end of the tokens instead of returning the table read so far |
| Pipeline.TableOfSameRecords | contrib/devtools/xversionkeys.py:53-55 | with distinct names, the same records in any order make the same table |
| Pipeline.ParseOrderIndependent | contrib/devtools/xversionkeys.py:74-114 | definitions of the same records in any order parse to the same table and generate the same header |
| Scenarios.LargestLiteral | contrib/devtools/xversionkeys.py:19 | `int("0xffff", 0)` is 65535 |
| Scenarios.FirstTooLargeLiteral | contrib/devtools/xversionkeys.py:19 | `int("0x10000", 0)` is 65536 |
| Scenarios.OtherLiterals | contrib/devtools/xversionkeys.py:19-20 | `-1` converts, while `012` and `0x` are rejected |
| Scenarios.RangeLimits | contrib/devtools/xversionkeys.py:26-29 | 0xffff is accepted for both fields; 0x10000 and -1 are out of range |
| Scenarios.CheckOrder | contrib/devtools/xversionkeys.py:19-25 | a bad literal is reported before any check, and the key type is checked before the value type, which is checked before the ranges |
| Scenarios.TwoRecords | contrib/devtools/xversionkeys.py:39-55 | two definitions in hexadecimal and decimal parse into a table holding both |
| Scenarios.NamesOrdered | contrib/devtools/xversionkeys.py:74 | `NAME1` sorts before `NAME2` |
| Scenarios.TwoRecordsKeyOrder | contrib/devtools/xversionkeys.py:74 | the per-key blocks of that table list `NAME1` before `NAME2` |
| Scenarios.TwoRecordsValueTypes | contrib/devtools/xversionkeys.py:90-92 | the value type enum of that table is `u64c` then `vector` |
| Scenarios.DuplicateNameFields | contrib/devtools/xversionkeys.py:16-29 | each of the two clashing `NAME1` definitions reads successfully on its own |
| Scenarios.DuplicateName | contrib/devtools/xversionkeys.py:53-54 | a second definition of a name stops the parse with a duplicate key error |
| Scenarios.RangeErrorAbortsParse | contrib/devtools/xversionkeys.py:19-29 | a prefix of 0x10000 fails the whole parse with a range error |
| Scenarios.BadLiteralAbortsParse | contrib/devtools/xversionkeys.py:19-20 | a bad literal in a second definition fails the whole parse; the first definition is not returned |
| Scenarios.ZeroDigits | contrib/devtools/xversionkeys.py:76 | zero written in w hexadecimal digits is w zeros |
| Scenarios.TwoRecordsConstants | contrib/devtools/xversionkeys.py:76 | the enum constants of the two-record table are `0x0000000000010002` and `0x0000000000000000` |
| Scenarios.EndsInsideRecord | contrib/devtools/xversionkeys.py:44-47 | empty input gives the empty table; input ending inside a definition fails |
| Scenarios.UnknownCommandAfterRecord | contrib/devtools/xversionkeys.py:49-50 | a lower-case `key` after a definition is an unknown command |

## Left out

- Tokenizing with `shlex.shlex` (line 40) is not modelled; the input is a sequence of tokens. Comments, quoting and the word characters are not modelled. The default non-POSIX `shlex` splits `-1` into `-` and `1`, so on real input a negative literal fails earlier than the model's `ParseInt` shows.
- `int(s, 0)` is modelled for ASCII text: an optional sign, the `0x`, `0o` and `0b` prefixes, and decimal literals without leading zeros (zeros alone are allowed). Underscores between digits and surrounding whitespace are not modelled.
- Python's `int` also accepts non-ASCII decimal digits (`int('١', 0) == 1`); the model rejects them as bad literals.
- Python 3.11 and later reject decimal literals of more than 4300 digits; the model converts them and then reports the value out of range.
- Reading stdin and printing to stdout are not modelled. `Generate` returns the printed lines as strings.
- The fixed preamble (lines 60-70) and trailer (lines 116-120) of the header are not modelled, because they do not depend on the table.
- The text of the error messages is not modelled; `Error` records which check failed, with the offending token or value.
- `import time` is unused by the script and is not modelled.
- The source does not check that different keys have different combined values, so the model does not either. Two keys may then share an enum constant.
- `%016x` prints more than sixteen digits for values of 2^64 and above. That case is not modelled, because checked prefixes and suffixes keep every constant below 2^32.
