# ParseCSV processor: a Dafny model of its record transformation

The ParseCSV processor reads CSV text inside a flow-processing host. It re-prints the text in the same dialect. On the way it masks the values of configured columns, and it can also copy every original value into a per-record attribute. This project models the processor's logic in `ParseCSV.java` and proves its properties:

- **`mask` / `randomChar`** (module `Masking`, with the generator in `JavaRandom`). Each character is lower-cased and looked up in three alphabets: consonants `bcdfghjklmnpqrstvwxz`, vowels `aeiouy` and digits `0123456789`.
  - A character found in one is replaced by a member of the same alphabet. The member is drawn from a `Random` created from the seed on every call.
  - The replacement is upper-cased when lower-casing had changed the original.
  - Every other character is copied.
  - `Mask` is a loop that rewrites a character array in place while advancing a `Random` object. It is proved equal to the function `Masked`.
  - The lemmas prove the following about `Masked`:
    - the length is kept;
    - unclassified characters are copied;
    - each character's class and case are kept;
    - the generator is advanced exactly once per classified character;
    - a closed form of each output position holds;
    - for a fixed seed, the output depends only on the class and case pattern of the input.
- **`buildFormat`** (module `Formats`): the preset lookup (`DEFAULT`, `EXCEL`), the three header branches and the delimiter override.
  - An unknown preset leaves the format `null`. The next `withX` call then dereferences it. This is modelled as an error result, or, when no step applies, as the `null` returned to the parser.
  - A custom header is passed as one varargs element. The resulting header is therefore one column named by the whole string, commas included.
- **The stream callback** (module `ParseCsv`, with `column_mask.split(",")` in `ColumnList`):
  - it opens the input and prints the header row;
  - it then rebuilds every record in header order;
  - column `i` is masked with seed `i` exactly when its name is an element of the mask list, and copied otherwise;
  - when asked, it puts `name + "." + recordNumber` into the attribute map, holding the original value.
  - `TransformRecords`, `BuildRow` and `PutAttributes` are the loops of the source. `AttributesHoldOriginalValues` proves what the attribute map holds after all records.

The Commons CSV parser is a parameter `parse` of `Process`, because its source is not part of this model. What the callback relies on from it is the predicate `ParserReportsHeader`. It is used as a hypothesis in the contracts, not as a precondition.

`ParseCSVTest.java` (lines 50 and 55-58) sets a `COLUMN_ENCRYPT` property and expects a `RELATIONSHIP_TOKENIZED` relationship. `ParseCSV.java` defines neither and has no encryption, tokenization or ledger code, so the model has none. A configuration without a header is not rejected up front: it fails when the callback asks the parser for its header map (`NoHeaderMap`).

## Model

| member | source | states |
|---|---|---|
| `JavaRandom.Random.constructor` | nifi-ParseCSV-processors/src/main/java/org/apache/nifi/processors/ParseCSV/ParseCSV.java:262 | a generator created from `seed` starts in the state determined by the seed alone |
| `JavaRandom.InitialState` | nifi-ParseCSV-processors/src/main/java/org/apache/nifi/processors/ParseCSV/ParseCSV.java:262 | the state of `new Random(seed)` is a 48-bit value |
| `JavaRandom.Advance` | nifi-ParseCSV-processors/src/main/java/org/apache/nifi/processors/ParseCSV/ParseCSV.java:278 | one generator step stays within 48 bits |
| `JavaRandom.ScaledDrawBelowBound` | nifi-ParseCSV-processors/src/main/java/org/apache/nifi/processors/ParseCSV/ParseCSV.java:278 | scaling a 31-bit draw by a power-of-two bound stays below the bound |
| `JavaRandom.NextIntOf` | nifi-ParseCSV-processors/src/main/java/org/apache/nifi/processors/ParseCSV/ParseCSV.java:278 | `nextInt(bound)` yields a value in `[0, bound)` and advances the state by exactly one step |
| `JavaRandom.Random.NextInt` | nifi-ParseCSV-processors/src/main/java/org/apache/nifi/processors/ParseCSV/ParseCSV.java:278 | the draw lies in `[0, bound)`, and the object's state advances by one step |
| `Masking.ConsonantsAreLowerAscii` | nifi-ParseCSV-processors/src/main/java/org/apache/nifi/processors/ParseCSV/ParseCSV.java:258-260 | every consonant is a lower-case ASCII letter that is neither a vowel nor a digit |
| `Masking.VowelsAreLowerAscii` | nifi-ParseCSV-processors/src/main/java/org/apache/nifi/processors/ParseCSV/ParseCSV.java:258-260 | every vowel is a lower-case ASCII letter that is neither a consonant nor a digit |
| `Masking.DigitsAreAscii` | nifi-ParseCSV-processors/src/main/java/org/apache/nifi/processors/ParseCSV/ParseCSV.java:258-260 | every digit is an ASCII digit that is in neither letter alphabet |
| `Masking.AlphabetsAreLowerAscii` | nifi-ParseCSV-processors/src/main/java/org/apache/nifi/processors/ParseCSV/ParseCSV.java:258-260 | an alphabet member classifies back to its own alphabet, upper-cased or not, and is unchanged by lower-casing |
| `Masking.PickChar` | nifi-ParseCSV-processors/src/main/java/org/apache/nifi/processors/ParseCSV/ParseCSV.java:277-280 | `randomChar` returns a member of `cs`, upper-cased on request, and takes exactly one draw |
| `Masking.RandomChar` | nifi-ParseCSV-processors/src/main/java/org/apache/nifi/processors/ParseCSV/ParseCSV.java:277-280 | the method draws once from the `Random` object and returns `PickChar` of the old state |
| `Masking.MaskChar` | nifi-ParseCSV-processors/src/main/java/org/apache/nifi/processors/ParseCSV/ParseCSV.java:265-273 | one position keeps its class and its case flag; an unclassified character is copied and draws nothing; a classified one draws once and lands in its own alphabet, as an ASCII capital exactly when the input was upper-case |
| `Masking.MaskCharByBranches` | nifi-ParseCSV-processors/src/main/java/org/apache/nifi/processors/ParseCSV/ParseCSV.java:266-273 | one position equals the loop's chain of consonant, vowel and digit look-ups |
| `Masking.MaskRun` | nifi-ParseCSV-processors/src/main/java/org/apache/nifi/processors/ParseCSV/ParseCSV.java:263-274 | the masked string has the input's length |
| `Masking.MaskRunDraws` | nifi-ParseCSV-processors/src/main/java/org/apache/nifi/processors/ParseCSV/ParseCSV.java:265-273 | after the whole string, the generator has advanced once per classified character and never for another |
| `Masking.MaskRunAt` | nifi-ParseCSV-processors/src/main/java/org/apache/nifi/processors/ParseCSV/ParseCSV.java:263-274 | output position `i` is input position `i` masked from the state the prefix before it left |
| `Masking.MaskedAt` | nifi-ParseCSV-processors/src/main/java/org/apache/nifi/processors/ParseCSV/ParseCSV.java:256-275 | `mask(str, seed)[i]` is `str[i]` masked with the fresh seeded generator advanced once per classified character before `i` |
| `Masking.MaskKeepsOtherChars` | nifi-ParseCSV-processors/src/main/java/org/apache/nifi/processors/ParseCSV/ParseCSV.java:265-273 | a character in none of the alphabets is copied unchanged |
| `Masking.MaskKeepsClass` | nifi-ParseCSV-processors/src/main/java/org/apache/nifi/processors/ParseCSV/ParseCSV.java:258-272 | a consonant masks to a consonant, a vowel to a vowel and a digit to a digit, and the lower-cased output is in the input's alphabet |
| `Masking.MaskKeepsCase` | nifi-ParseCSV-processors/src/main/java/org/apache/nifi/processors/ParseCSV/ParseCSV.java:266-279 | the output is upper-case exactly when lower-casing changed the input; classified outputs are ASCII capitals exactly then; digits are never upper-cased |
| `Masking.MaskRunShape` | nifi-ParseCSV-processors/src/main/java/org/apache/nifi/processors/ParseCSV/ParseCSV.java:263-274 | strings of the same class and case pattern, from the same state, mask to the same string and leave the same state |
| `Masking.MaskedDependsOnlyOnShape` | nifi-ParseCSV-processors/src/main/java/org/apache/nifi/processors/ParseCSV/ParseCSV.java:256-280 | for a fixed seed, `mask` depends only on each character's class and case and on the unclassified characters |
| `Masking.Mask` | nifi-ParseCSV-processors/src/main/java/org/apache/nifi/processors/ParseCSV/ParseCSV.java:256-275 | the in-place loop over the character array returns `Masked(str, seed)`, a value of `str` and `seed` alone |
| `ColumnList.Fields` | nifi-ParseCSV-processors/src/main/java/org/apache/nifi/processors/ParseCSV/ParseCSV.java:195 | the comma-separated pieces are never empty as a list, and no piece holds a comma |
| `ColumnList.JoinFields` | nifi-ParseCSV-processors/src/main/java/org/apache/nifi/processors/ParseCSV/ParseCSV.java:195 | joining the pieces with commas gives back the property value |
| `ColumnList.NoCommaIsOneField` | nifi-ParseCSV-processors/src/main/java/org/apache/nifi/processors/ParseCSV/ParseCSV.java:195 | a value without a comma is a single piece |
| `ColumnList.FieldsAfterComma` | nifi-ParseCSV-processors/src/main/java/org/apache/nifi/processors/ParseCSV/ParseCSV.java:195 | a comma-free name then a comma splits off as the first piece |
| `ColumnList.FieldsOfJoin` | nifi-ParseCSV-processors/src/main/java/org/apache/nifi/processors/ParseCSV/ParseCSV.java:195 | splitting undoes joining for comma-free names |
| `ColumnList.DropTrailingEmpty` | nifi-ParseCSV-processors/src/main/java/org/apache/nifi/processors/ParseCSV/ParseCSV.java:195 | the result is a prefix of the pieces, and everything dropped after it is an empty piece; it keeps every non-empty name, inner empty pieces included, and leaves no empty last piece |
| `ColumnList.Split` | nifi-ParseCSV-processors/src/main/java/org/apache/nifi/processors/ParseCSV/ParseCSV.java:195 | `split(",")` of a comma-free value is that value alone; a value with commas gives its pieces in order, with every trailing empty piece removed and nothing else; no element holds a comma |
| `ColumnList.EmptyInDropTrailingEmpty` | nifi-ParseCSV-processors/src/main/java/org/apache/nifi/processors/ParseCSV/ParseCSV.java:195 | the empty piece survives the dropping exactly when some non-empty piece follows an empty one |
| `ColumnList.SplitEmptyName` | nifi-ParseCSV-processors/src/main/java/org/apache/nifi/processors/ParseCSV/ParseCSV.java:195 | the empty name is in `split(",")` exactly when the value is empty, or when a non-empty piece follows an empty one (`"a,,b"` keeps it, `"a,"` does not) |
| `ColumnList.SplitMembership` | nifi-ParseCSV-processors/src/main/java/org/apache/nifi/processors/ParseCSV/ParseCSV.java:195 | a non-empty name is in `split(",")` exactly when it is one of the comma-separated pieces, compared exactly, without trimming |
| `Formats.BuildFormat` | nifi-ParseCSV-processors/src/main/java/org/apache/nifi/processors/ParseCSV/ParseCSV.java:233-254 | a format is built exactly for `DEFAULT` and `EXCEL`; any other name throws when a header or delimiter step applies, and yields `null` otherwise; the delimiter is overridden exactly when its code is positive; the header follows the three branches, and a custom header is one column with the first record skipped |
| `ParseCsv.MaskList` | nifi-ParseCSV-processors/src/main/java/org/apache/nifi/processors/ParseCSV/ParseCSV.java:188-196 | a non-empty column name is in the mask list exactly when a column mask is set and the name is one of its comma-separated pieces; the empty name is in it exactly when a column mask is set and is empty, or has a non-empty piece after an empty one |
| `ParseCsv.DecimalString` | nifi-ParseCSV-processors/src/main/java/org/apache/nifi/processors/ParseCSV/ParseCSV.java:203 | a record number renders as a non-empty string of decimal digits |
| `ParseCsv.DecimalRoundTrip` | nifi-ParseCSV-processors/src/main/java/org/apache/nifi/processors/ParseCSV/ParseCSV.java:203 | the rendered digits read back as the record number |
| `ParseCsv.KeyShape` | nifi-ParseCSV-processors/src/main/java/org/apache/nifi/processors/ParseCSV/ParseCSV.java:203 | the '.' after the column name is the last '.' of an attribute key |
| `ParseCsv.AttributeKeyInjective` | nifi-ParseCSV-processors/src/main/java/org/apache/nifi/processors/ParseCSV/ParseCSV.java:203 | two attribute keys are equal only for the same column name and record number |
| `ParseCsv.PutColumnsKeepsOtherRecords` | nifi-ParseCSV-processors/src/main/java/org/apache/nifi/processors/ParseCSV/ParseCSV.java:201-205 | putting one record's attributes leaves every other record's keys and values alone |
| `ParseCsv.PutColumnsAt` | nifi-ParseCSV-processors/src/main/java/org/apache/nifi/processors/ParseCSV/ParseCSV.java:201-205 | with distinct column names, every put column's key holds that column's value |
| `ParseCsv.AttributesHoldOriginalValues` | nifi-ParseCSV-processors/src/main/java/org/apache/nifi/processors/ParseCSV/ParseCSV.java:198-205 | after all records, `attributes[header[i] + "." + n]` is the original, unmasked value of column `i` of record `n`, for every record and column |
| `ParseCsv.PutAttributes` | nifi-ParseCSV-processors/src/main/java/org/apache/nifi/processors/ParseCSV/ParseCSV.java:201-205 | the attribute loop fails exactly when the record has fewer values than the header, and otherwise puts every column in order |
| `ParseCsv.BuildRow` | nifi-ParseCSV-processors/src/main/java/org/apache/nifi/processors/ParseCSV/ParseCSV.java:207-216 | the row has one value per header column in header order: masked with seed `i` exactly when the column's name is in the mask list, copied otherwise; it fails exactly when the record is short |
| `ParseCsv.TransformRecords` | nifi-ParseCSV-processors/src/main/java/org/apache/nifi/processors/ParseCSV/ParseCSV.java:186-223 | the output is the header row, then exactly one row per record in input order; each row has the header's width and the per-column mask policy, with nothing carried over between records; the attributes are those of all records, or none when not asked for; it fails at the first short record, naming that record |
| `ParseCsv.OpenInput` | nifi-ParseCSV-processors/src/main/java/org/apache/nifi/processors/ParseCSV/ParseCSV.java:181-186 | only `DEFAULT` and `EXCEL` get past this step; given the parser's header behaviour, it succeeds exactly for those presets with a header configured, fails with `NoHeaderMap` for those presets without one, and a custom header is the single column named by the whole string |
| `ParseCsv.Process` | nifi-ParseCSV-processors/src/main/java/org/apache/nifi/processors/ParseCSV/ParseCSV.java:179-226 | the callback succeeds exactly when the input opens and every record is wide enough; a failure to open is reported with the same failure; its rows and attributes are those of the record loop, using the mask list split from the column-mask property |

## Left out

- NiFi host plumbing is not modelled (host I/O and lifecycle):
  - the property descriptors and the relationships (`RELATIONSHIP_FAILURE` is also named "success");
  - `init`, `onScheduled`, `session.get`, `session.write` and `putAllAttributes`;
  - the transfer to a relationship.
- Commons CSV parsing and printing are not modelled. The parser is the parameter `parse` of `Process`, and printing is the list of printed rows. Quoting, escaping and record separators are not modelled.
- `Formats.BuildFormat`: the library's own validation of a format is not modelled. For `DEFAULT` and `EXCEL`, `withDelimiter` throws when the delimiter is a line break, so the source fails there, while the model returns a format with that delimiter.
- Rows printed before a failure are not modelled. A failure carries no output, because the host discards the write.
- `JavaRandom.NextIntOf`, `JavaRandom.Random.NextInt`: the retry loop of `nextInt` is left out; both take one draw and advance the state once. That loop redraws when `next(31)` falls in the last incomplete block of `2^31`, which is 8 of `2^31` values for bounds 20 and 10 and 2 for bound 6. Its termination cannot be proved. No property here depends on the concrete values drawn.
- `Masking.ToLowerCase`: it agrees with `Character.toLowerCase` only where the masker can observe it. Those are characters whose lower-case form is an ASCII letter or digit: A to Z, U+0130 and U+212A. It maps every other character to itself.
- Java strings are sequences of UTF-16 code units, while a Dafny `string` holds Unicode scalar values. A character outside the Basic Multilingual Plane is one element here and two surrogates in Java. It is copied unchanged either way.
- `ParseCsv.AttributesHoldOriginalValues`: distinct header names and distinct record numbers are hypotheses. The parser guarantees both: the names are the key set of its header map, and it numbers records in order.
- The insertion order of the attribute map (`LinkedHashMap`) is not modelled. It is a `map`.
- The charset handling, the `System.out.println` debug output and the extra `mask` call it makes are left out. That call has no effect on the result.
- The `else` branch that prints the unmodified record is never reached, because the mask list is never `null`. It has no counterpart here.
- `ParseCSVTest.java` is not modelled. It reads absolute local paths and refers to properties the processor does not define.
- Encryption, tokenization and a tokenization ledger are not modelled: `ParseCSV.java` has no code for them (only its test names such properties).
