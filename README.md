# Volleyball scouting line decoder, modelled in Dafny

This project models the core of `vbmetrics/parser`. The core decodes one line of a
volleyball scouting shorthand into typed events, an optional comment and a list of
warnings, and it never fails. Two source files make up the core:

- `src/parser.rs`, the line decoder:
  - `parse_line` splits the line at the first `%` into a data segment and a comment. Both parts are trimmed.
  - Data that starts with `!` goes to `parse_special_event`.
  - Any other data goes to `parse_normal_events`. That function cuts fixed 9-character records and attaches a short modifier to each.
- `src/validation.rs`: six total membership tests. They check the team, player, skill, eval, zone and subzone fields.

Files:

- `text.dfy` (module `Text`): `Option`, ASCII text, and the standard-library operations the decoder uses. These are `str::trim` (`Trim`) and `str::splitn(2, sep)` (`SplitOnce`).
- `validation.dfy` (module `Validation`): the validators as functions. The translation lookup `tr` is a parameter.
- `parser.dfy` (module `Parser`): the records, the three decoder operations as imperative methods, and the specification functions the methods are proved equal to. These are `SpecialSpec`, `Scan` (the normal-event loop, one record per step) and `LineSpec`.
- `parser_props.dfy` (module `ParserProperties`): lemmas about the specification functions.
  - Rendering events back to text reproduces the consumed prefix.
  - `Decodes` is a definition of "a decoding of the data segment" that does not depend on `Scan`. `Scan`'s result is a decoding, and it is the only one.
  - Further lemmas cover warning counts, comment handling, dispatch between the two event kinds, and concrete examples.

The model follows the code as written. Several behaviours differ from what the notation suggests:

- The parser never calls the validators. Its only check is an inline team check. Normal records accept `L`/`D` (`src/parser.rs:121`) and special events accept `L`/`D`/`R` (`src/parser.rs:87`). The validators accept `L`/`O` instead (`TeamChecksDisagree`).
- There is no resynchronisation. A bad team character still consumes a whole 9-character record (`ExampleNoResynchronisation`).
- A trailing remainder of fewer than 9 characters is dropped without a warning.
- A normal modifier is two characters, or one at the end of the data. It is absent when `L`/`D` follows the record. Its second character is taken without a check, so it can swallow a team code (`ExampleModifierSwallowsTeam`).
- A special modifier is at most the single character after the eval code (`ExampleSpecialModifier`).

## Model

| member | source | states |
|---|---|---|
| `Text.Trim` | src/parser.rs:48-50 | the result has no whitespace at either end, and whitespace-only text trims to empty (with `TrimStart`/`TrimEnd`: only leading and trailing whitespace is removed) |
| `Text.SplitOnce` | src/parser.rs:47-51 | without the separator the text is returned whole with no second part; otherwise the text is the first part, the separator, then the rest, and the first part holds no separator |
| `Text.SplitOnceAtFirst` | src/parser.rs:47 | any split of the text at a separator with none before it is the split `SplitOnce` returns, so the split is at the first `%` |
| `Text.SplitOnceWithoutSeparator` | src/parser.rs:47-51 | text without the separator is not split and has no second part |
| `Validation.Message` | src/validation.rs:11 | a validator's warning is the translated key, then `": "`, then the offending value, so it ends with that value |
| `Validation.ValidateTeam` | src/validation.rs:3-15 | valid (`None`) exactly for `L` or `O`, or `R` in special mode; otherwise the team warning for that character |
| `Validation.ValidatePlayer` | src/validation.rs:17-23 | valid exactly when the player field has two characters and both are digits; otherwise the player warning for that text |
| `Validation.ValidateSkill` | src/validation.rs:25-37 | valid exactly for `S R P A B D` in normal mode and `F T H C` in special mode; otherwise the skill warning |
| `Validation.ValidateEval` | src/validation.rs:39-47 | valid exactly for `+ - #` in normal mode and `= + -` in special mode; otherwise the eval warning |
| `Validation.ValidateZone` | src/validation.rs:49-55 | valid exactly for the digits `1` to `9`; otherwise the zone warning |
| `Validation.ValidateSubzone` | src/validation.rs:57-63 | valid exactly for the letters `A` to `I`; otherwise the subzone warning |
| `Validation.TeamValidityMonotone` | src/validation.rs:4-8 | every team code valid for normal events is valid for special ones, and `R` is the only code that special mode adds |
| `Validation.SkillAlphabetsDisjoint` | src/validation.rs:26-30 | no skill code is valid in both modes |
| `Validation.EvalAlphabetsOverlap` | src/validation.rs:39-47 | `+` and `-` are valid in both modes, `#` only in normal mode and `=` only in special mode |
| `Validation.ZoneAndSubzoneAlphabets` | src/validation.rs:49-63 | zone `0` is rejected, and no character is both a valid zone and a valid subzone |
| `Parser.ParseSpecialEvent` | src/parser.rs:77-107 | returns exactly `SpecialSpec(input)`; it fails exactly when the body is shorter than 5 characters, and then with the single not-enough-characters warning |
| `Parser.ParseNormalEvents` | src/parser.rs:109-160 | the cursor loop stays within the data (invariant `index <= size`), terminates on `size - index`, and returns exactly `Scan(input, 0)` |
| `Parser.ModifierEnd` | src/parser.rs:137-143 | the modifier after a record covers 0, 1 or 2 characters and never runs past the end of the data |
| `Parser.ParseLine` | src/parser.rs:41-75 | returns exactly `LineSpec(line)`: the comment and data split at the first `%` and trimmed, then the special or normal decoder's events and warnings |
| `ParserProperties.ScanRendersPrefix` | src/parser.rs:116-143 | the normal events, written back field by field with their modifiers and in order, are exactly the consumed prefix of the data, and fewer than 9 characters are left unconsumed |
| `ParserProperties.ScanDecodes` | src/parser.rs:116-157 | the normal events form a decoding: each one matches the text at its position, has a two-character player field and a maximal modifier (absent exactly when the data ends or `L`/`D` follows, else 2 characters or 1 at the end) |
| `ParserProperties.DecodesUnique` | src/parser.rs:116-157 | any decoding of the data segment equals the scanner's result, so that result is fully determined by the text |
| `ParserProperties.ScanWarnings` | src/parser.rs:120-123 | the normal warnings are one team warning per record whose team is not `L` or `D`, in record order, and nothing else |
| `ParserProperties.TeamWarningsBounded` | src/parser.rs:120-123 | there are never more normal warnings than records, and each names a team code other than `L`/`D` |
| `ParserProperties.ScanCount` | src/parser.rs:116-157 | each record consumes 9 to 11 characters, so 9 times the event count is at most the data length, which is less than 11 times the count plus 9 |
| `ParserProperties.SpecialKeepsSixChars` | src/parser.rs:86-95 | a body of 5 or more characters always gives an event; written back, the event is the body's first six characters (at most), so everything after `chars[5]` is dropped; the only warning is for a team outside `L`/`D`/`R` |
| `ParserProperties.CommentAfterFirstPercent` | src/parser.rs:47-51 | the comment is `Some` of the trimmed text after the first `%`, or `Some("")` when only whitespace follows it; the data is the trimmed text before the first `%` |
| `ParserProperties.NoCommentWithoutPercent` | src/parser.rs:47-51 | without a `%` the comment is `None` and the whole trimmed line is data |
| `ParserProperties.CommentIffPercent` | src/parser.rs:47-51 | there is a comment exactly when the line contains `%` |
| `ParserProperties.CommentDoesNotAffectEvents` | src/parser.rs:47-68 | events and warnings do not depend on the text after the first `%` |
| `ParserProperties.NoMixedKinds` | src/parser.rs:54-68 | data starting with `!` yields at most one event, and it is special; any other data yields only normal events |
| `ParserProperties.ShortSpecialBody` | src/parser.rs:81-84 | a special body shorter than 5 characters yields no event and exactly one warning (not enough characters) |
| `ParserProperties.SpecialLine` | src/parser.rs:86-95 | a special body of 5 or more characters yields exactly one event: team `c[0]`, player `c[1..3]`, skill `c[3]`, eval `c[4]`, and modifier `[c[5]]` exactly when the body is longer than 5; there is at most one warning, and none exactly when the team is `L`, `D` or `R` |
| `ParserProperties.NormalLine` | src/parser.rs:64-67 | data not starting with `!` yields the events of a decoding of the data segment, with one warning per record whose team is not `L`/`D` |
| `ParserProperties.TeamChecksDisagree` | src/parser.rs:121 | the decoder accepts team `D` where the validator rejects it, and rejects team `O` where the validator accepts it |
| `ParserProperties.PlainLine` | src/parser.rs:47-51 | a line without `%` and without whitespace at either end decodes exactly as its own data segment, with no comment |
| `ParserProperties.ExampleTwoRecords` | tests/parser_tests.rs:7-8 | `L07S+1A5BD02R+5B3C` yields two events and no warnings |
| `ParserProperties.ExampleSpecial` | tests/parser_tests.rs:14-21 | `!D00H+` yields one special event with team `D`, player `00`, skill `H`, eval `+`, no modifier, and no warnings |
| `ParserProperties.ExampleSpecialModifier` | src/parser.rs:95 | for `!R12T=ab` the special modifier is `a`, and `b` is dropped |
| `ParserProperties.ExampleShortSpecial` | src/parser.rs:81-84 | `!D0` yields no event and the single not-enough-characters warning |
| `ParserProperties.ExampleNoResynchronisation` | src/parser.rs:116-131 | `XL07S+1A5B` yields one record with team `X` and player `L0`, the modifier `B`, and one team warning; nothing is skipped |
| `ParserProperties.ExampleModifierCapped` | src/parser.rs:137-143 | after a record, `XYZ` gives the modifier `XY`; `Z` is dropped without a warning |
| `ParserProperties.ExampleModifierSwallowsTeam` | src/parser.rs:137-143 | in `L07S+1A5BxL07S+1A5B` the modifier `xL` swallows the next team code, and the second record is lost without a warning |

## Left out

- `src/main.rs` is the interactive read/print loop. It is pure I/O and is not part of this model.
- `src/translation.rs` reads the `LANG` environment variable and a process-wide table. It is not modelled. The validators take the lookup `tr` as a parameter.
- The parser's warning texts (`src/parser.rs:82, 88, 122`) are Polish strings. The model keeps them as the datatype `Warning`: `TooFewSpecialChars`, or `InvalidTeam` with the offending character.
- Parser.ParseLine: requires ASCII text. The source slices by byte in some places and indexes by character in others. The two agree only on single-byte text; multi-byte text can shift the fields or panic, and that behaviour is not modelled.
- Parser.ParseSpecialEvent: requires ASCII text, for the same reason as `ParseLine`.
- Parser.ParseNormalEvents: requires ASCII text, for the same reason as `ParseLine`.
- Validation.ValidatePlayer: requires ASCII text. On other text, Rust compares the byte length with 2 and applies Unicode `is_numeric`, and neither is modelled.
- Text.Trim: removes ASCII whitespace only. Given the ASCII precondition, this is everything Rust's Unicode `trim` would remove.
- `usize` overflow of `index + 9` is not modelled. It needs input lengths near the address-space limit.
- `#[derive(Debug)]` formatting of the records is not modelled.
