# Composite exchange identifier parser

This project models the core of a small Rust program that reads an
identifier `Id { exchange_id: String, account_number: u8 }` out of a
configuration value. It has two layers:

- `Id::from_str` parses one text against the whole-text pattern
  `(^[A-Za-z]+)(\d+$)`. The letter run becomes the exchange id and the digit
  run is parsed as a `u8`. A text that does not match fails with
  "Invalid format". A digit run above 255 fails with "Can't parse exchange
  account number".
- The custom `Deserialize` implementation reads a key/value stream. The field
  visitor knows only the key `exchange_id`. The map visitor remembers that
  key's value and rejects a repeated key. Once the stream ends, it hands the
  value to `from_str`.

Module `Ids` (`id.dfy`) holds the identifier, the pattern, `from_str` and the
parse lemmas: the pattern's split point is unique, texts that match parse
exactly, texts that do not match are rejected, `letters ++ decimal(n)` round
trips and leading zeros are accepted. Module `IdDeserialize`
(`id_deserialize.dfy`) holds the two visitors. `VisitMap` is a loop proved
against `VisitMapOutcome`, a specification that looks only at the first two
entries. Lemmas then state when the outcome is a success and when it is each
kind of error. `Wrappers` (`wrappers.dfy`) provides `Option` and `Result`.

Errors are tagged variants, not message strings. `IdParseError` is
`InvalidFormat | NumberOverflow`. The serde errors are
`UnknownField(field, expected) | DuplicateField(field) | MissingField(field)`.
`expected` is the constant `FIELDS = ["exchange_id", "account_number"]`.

`FIELDS` (src/main.rs:133) and the visitor's `expecting` message
(src/main.rs:83) both name `account_number`. However, `visit_str`
(src/main.rs:90-92) accepts only `exchange_id`, so `account_number` is an
unknown key like any other. The model follows `visit_str`
(`IdDeserialize.AccountNumberIsUnknown`).

## Model

| member | source | states |
|---|---|---|
| `Ids.NewIsStructural` | src/main.rs:9-25 | `Id::new` stores exactly its two arguments, and two identifiers are equal exactly when both fields are equal |
| `Ids.DefaultParses` | src/main.rs:27-32 | `Id::default()` is ("test", 0), which is also what the text "test0" parses to |
| `Ids.Captures` | src/main.rs:39-46 | the pattern captures (letters, digits) exactly when the whole text is a non-empty letter run followed by a non-empty digit run; the text is the two captures concatenated, and no other split matches |
| `Ids.SplitIsUnique` | src/main.rs:39-40 | letters and digits are disjoint, so a match splits only where the longest letter prefix ends |
| `Ids.FromStr` | src/main.rs:38-60 | the result is "Invalid format" exactly when the text does not match the pattern; a parsed exchange id is a non-empty run of ASCII letters |
| `Ids.ParseLettersDigits` | src/main.rs:38-59 | every text of the form letters ++ digits parses to `Id::new(letters, value(digits))` when the value is at most 255, and gives the number error otherwise |
| `Ids.ParsedTextSplits` | src/main.rs:48-59 | a successful parse means that the text is the exchange id followed by a non-empty digit run whose value is the account number |
| `Ids.RoundTrip` | src/main.rs:38-59 | for any non-empty letter run L and any `u8` n, the text L ++ decimal(n) parses to `Id::new(L, n)` |
| `Ids.LeadingZeroAccepted` | src/main.rs:53-57 | a leading zero in the digit run changes neither success nor the parsed number |
| `Ids.MalformedRejected` | src/main.rs:42-44 | the empty text, a leading digit, a text ending in a letter, and any character that is neither a letter nor a digit all give "Invalid format" |
| `Ids.ExampleSimple` | src/main.rs:38-59 | "binance1" parses to ("binance", 1) |
| `Ids.ExampleLeadingZeros` | src/main.rs:53-57 | "a007" parses to ("a", 7) |
| `Ids.ExampleOverflow` | src/main.rs:53-57 | "binance999" gives the number error |
| `Ids.ExampleNoDigits` | src/main.rs:42-44 | "binance" gives "Invalid format" |
| `IdDeserialize.VisitStr` | src/main.rs:86-94 | a key is accepted exactly when it is "exchange_id"; any other key is an unknown-field error naming that key, with the expected field list |
| `IdDeserialize.AccountNumberIsUnknown` | src/main.rs:90-92 | "account_number" is an unknown field too |
| `IdDeserialize.VisitMap` | src/main.rs:110-130 | the loop's result equals the specification `VisitMapOutcome`; a ghost count of keys read shows it reads no key after the first unknown one and no more than two keys in all |
| `IdDeserialize.AcceptedIff` | src/main.rs:110-130 | the visitor succeeds exactly when the stream is one "exchange_id" entry whose value parses, and the result is then that parse |
| `IdDeserialize.MissingIff` | src/main.rs:125-126 | the missing-field error occurs exactly on an empty stream |
| `IdDeserialize.DuplicateIff` | src/main.rs:117-120 | the duplicate-field error occurs exactly when the first two keys are both "exchange_id" |
| `IdDeserialize.LaterEntriesIgnored` | src/main.rs:115-120 | entries after the second never change the outcome |
| `IdDeserialize.UnknownKeyReported` | src/main.rs:115-116 | the first or second key, when it is not "exchange_id" and every earlier key was, is reported by its own name |
| `IdDeserialize.BadValueReported` | src/main.rs:128-129 | when a single "exchange_id" value fails `from_str`, the error is an unknown field carrying the whole value |
| `IdDeserialize.StreamRoundTrip` | src/main.rs:110-130 | the stream [("exchange_id", L ++ decimal(n))] deserializes to `Id::new(L, n)` |

## Left out

- `main` (src/main.rs:144-153): loading `config.toml` through the `config` crate and printing the result are I/O.
- `Settings` and serde's `Deserializer`, `MapAccess`, `deserialize_identifier` and `deserialize_struct` belong to external libraries. The key/value stream is modelled as a finite sequence of (key, text) pairs.
- The error from `map.next_value()` when a value is not text depends on the external deserializer. Values are taken to be text.
- Other input shapes that serde may send to the visitors (`visit_str` on the identifier itself, bytes or integer keys) fall to serde's default "invalid type" errors. They are not modelled.
- The `Regex::new` failure branch (src/main.rs:40) cannot fire because the pattern is a constant. The `None` checks on `captures[1]` and `captures[2]` (src/main.rs:48-54) cannot fire either, because both groups are mandatory in a match. Neither is modelled.
- Ids.IsAsciiDigit: the regex crate's `\d` also matches non-ASCII Unicode digits. `u8::from_str` rejects those, so such a text fails in the source with "Can't parse exchange account number"; in the model it fails with `InvalidFormat`.
- The sign and empty-string paths of `u8::from_str` cannot be reached here, because the pattern passes it only non-empty runs of digits. Only its overflow error is modelled.
- Error messages are modelled as tagged variants, not text. The hash that `#[derive(Hash)]` provides is left out, because it follows from structural equality.
