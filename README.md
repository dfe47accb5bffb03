# otp-76 pad core, modelled in Dafny

This project models the core of otp-76, a generator of one-time-pad key material.
The model has three parts:

- **Pads** (`OtpPad.Pad`): an id string plus a sequence of `u8` keys.
- **The pad generator** (`OtpPad.PadGenerator`): each pad gets a 5-digit id and `nb_keys * 5` key digits in `[0, 10)`. Every value is drawn from a secure random source.
- **The pad collection** (`OtpPad.PadCollection`): an ordered list of pads. It looks pads up by first match, deletes every pad with a given id in place, and reports emptiness.

The argument validator `parse_int_arg` is modelled too (`Parsers.ParseIntArg`). It turns a command-line string into a count in 1..=100, or into one of four error messages. Its behaviour rests on Rust's integer parsing (`str::parse` for `u8` and `i32`). Module `FromStr` models that parsing as its left-to-right checked digit loop. `FromStr` also proves the loop equal to a declarative description: an optional sign, then at least one ASCII digit, with a value in range.

Files:

- `prelude.dfy`: the `u8`/`u32`/`i32` newtypes, `Option` and `Result`.
- `decimal.dfy`: digit strings. `DecimalString` is Rust's integer `to_string`. `DecimalValue` gives the number a digit string denotes. Lemmas prove the two are inverse bijections on canonical strings.
- `from_str.dfy`: `u8::from_str` and `i32::from_str`, and their declarative descriptions.
- `parsers.dfy`: `parse_int_arg` and its outcome lemmas.
- `otp_pad.dfy`: pads, the random source, the generator and the collection.

The `u8` product `nb_keys * KEY_SIZE` (src/otp/pad.rs:56) overflows once `nb_keys >= 52`. Dafny's `u8` newtype does not let that product leave its range, so `GeneratePad` requires `nbKeys * 5 <= 255`. This precondition is stricter than what the validator admits: `ValidatedKeyCountMayOverflow` proves that every count from 52 to 100 is valid, yet its product does not fit. In the repository, the only caller passes the constant 20.

Two behaviours of the code are easy to misread. The model follows the code in both:

- A pad need not have keys. `Pad::new` makes no emptiness check, so `Pad.New` accepts an empty key sequence.
- The validator does not check "not a number" first. The code first tries `u8`, then falls back to `i32` only to choose between the two failure messages. As a result, `"-5"` and `"-0"` get "Number too large", and numbers beyond `i32` get "not a valid number".

## Model

| member | source | states |
|---|---|---|
| `OtpPad.Pad.New` | src/otp/pad.rs:20-33 | the pad's id and keys are exactly the arguments, and its length is the number of keys (empty allowed) |
| `OtpPad.Pad.GetId` | src/otp/pad.rs:27-29 | the accessor returns the id the pad holds |
| `OtpPad.Pad.Len` | src/otp/pad.rs:31-33 | the length is the number of keys |
| `OtpPad.PadCreationExample` | src/otp/pad.rs:107-114 | `test_pad_creation`: id "12345" kept, ten keys give length 10; empty keys give length 0 |
| `OtpPad.SecureRandom.GenRange` | src/otp/pad.rs:55-57 | a draw from `[low, high)` lies in that range (the only property of the OS random source relied on) |
| `OtpPad.PadGenerator.GeneratePad` | src/otp/pad.rs:54-61 | given `nbKeys * 5 <= 255`, the pad has exactly `nbKeys * 5` keys, every key lies in `[0, 10)`, and the id is the decimal rendering of a draw from `[10000, 99999)` |
| `OtpPad.GeneratedIdFormat` | src/otp/pad.rs:47-55 | every generated id is exactly 5 ASCII digits with no leading zero, and denotes a value in `[10000, 99999)` |
| `OtpPad.PadGenerator.GeneratePads` | src/otp/pad.rs:63-65 | exactly `nbPads` pads, each with the length, key range and id format of one generated pad; no key-count condition when `nbPads == 0` |
| `OtpPad.ValidatedKeyCountMayOverflow` | src/otp/pad.rs:56 | for every n in 52..=100, the rendering of n is accepted by `ParseIntArg` with value n, yet `n * KEY_SIZE` exceeds 255, so every such validated key count overflows the `u8` product |
| `OtpPad.Find` | src/otp/pad.rs:81-83 | the lookup returns a pad with the requested id that no earlier pad shares, and returns none exactly when no pad has that id |
| `OtpPad.FindFirstMatch` | src/otp/pad.rs:81-83 | if index k is the lowest index with the id, the lookup returns the pad at k |
| `OtpPad.PadCollection.GetPad` | src/otp/pad.rs:81-83 | the pad returned carries the id and no earlier pad does; none is returned exactly when no pad has the id |
| `OtpPad.PadCollection.IsEmpty` | src/otp/pad.rs:89-91 | the collection is empty exactly when no lookup, for any id, finds a pad |
| `OtpPad.EmptyIffNothingFound` | src/otp/pad.rs:89-91 | a pad sequence is empty exactly when every lookup returns none |
| `OtpPad.Retained` | src/otp/pad.rs:85-87 | what `retain` keeps is no longer than the input, and every kept pad comes from the input and has a different id |
| `OtpPad.RetainedCount` | src/otp/pad.rs:85-87 | after deletion, no pad with the id remains, and every other pad keeps its number of occurrences |
| `OtpPad.RetainedConcat` | src/otp/pad.rs:85-87 | deletion distributes over concatenation, so the kept pads stay in their original relative order |
| `OtpPad.RetainedUnchanged` | src/otp/pad.rs:85-87 | deletion leaves the pads unchanged exactly when no pad has the id |
| `OtpPad.RetainedIdempotent` | src/otp/pad.rs:85-87 | deleting the same id twice equals deleting it once |
| `OtpPad.FindAfterRetained` | src/otp/pad.rs:85-87 | deleting one id does not change the lookup of any other id |
| `OtpPad.PadCollection.constructor` | src/otp/pad.rs:77-79 | the new collection holds exactly the given pads, in order |
| `OtpPad.CollectionLifecycle` | src/otp/pad.rs:136-151 | `test_pad_collection`: a one-pad collection is not empty and finds the pad "12345"; after deleting "12345" it finds nothing and is empty |
| `OtpPad.PadCollection.DeletePad` | src/otp/pad.rs:85-87 | the new pads are the old pads without those carrying the id; looking up that id then finds nothing; lookups of other ids are unchanged; the collection is empty exactly when every old pad had the id |
| `Parsers.ParseIntArg` | src/parsers.rs:1-15 | Ok(v) only for a `u8` literal denoting v with 1 <= v <= 100. A `u8` literal denoting 0 gives the zero message, and one denoting 101..=255 gives the range message. An `i32` literal that is not a `u8` literal gives "too large". Anything else gives "'s' is not a valid number" |
| `Parsers.MessagesDistinct` | src/parsers.rs:4-13 | the four error messages are pairwise different for every input, so each outcome can be told apart |
| `Parsers.ParseIntArgOfRendering` | src/parsers.rs:1-15 | for the decimal rendering of every n: zero message for 0, Ok(n) for 1..=100, range message for 101..=255, "too large" up to 2^31-1, otherwise "not a valid number" |
| `Parsers.ParseIntArgOfNegative` | src/parsers.rs:2-6 | "-" followed by the rendering of n gives "too large" when n <= 2^31 (including "-0"), otherwise "not a valid number" |
| `Parsers.ParseIntArgIgnoresPadding` | src/parsers.rs:2 | for values that fit `u8`, leading zeros and one leading '+' do not change the outcome |
| `Parsers.ParseIntArgUnitTest` | src/parsers.rs:22-40 | `test_parse_int_arg`'s five cases: "10" gives Ok(10), "0" the zero message, "101" the range message, "abc" "not a valid number", "1000" "too large" |
| `Parsers.ParseIntArgSignExamples` | src/parsers.rs:2-8 | "-5" and "-0" give "too large", "+7" gives Ok(7), "-" and "" give "not a valid number" |
| `FromStr.Accumulate` | src/parsers.rs:2 | the checked digit loop, when it succeeds, returns a value between the starting accumulator and the type's bound |
| `FromStr.AccumulateMeetsValue` | src/parsers.rs:2 | after a consumed digit prefix, the loop succeeds exactly when the rest is all digits and the whole string's value is within the bound; it then returns that value |
| `FromStr.AccumulateFromZero` | src/parsers.rs:2 | from an empty accumulator, the loop computes the value of an all-digit string within the bound, and fails otherwise |
| `FromStr.ParseU8Meets` | src/parsers.rs:2 | `u8::from_str` succeeds exactly on `u8` literals (optional '+', digits, value <= 255) and returns their value |
| `FromStr.ParseI32Meets` | src/parsers.rs:3 | `i32::from_str` succeeds exactly on `i32` literals (optional '+' or '-', digits, value within `i32`) and returns their value |
| `FromStr.ParseU8RoundTrip` | src/parsers.rs:2 | every `u8` value's decimal rendering parses back to that value |
| `Decimal.DecimalString` | src/otp/pad.rs:55 | the rendering of n is a non-empty string of digits; it has no leading zero unless n is 0, and it is one character exactly when n < 10 |
| `Decimal.DecimalRoundTrip` | src/otp/pad.rs:55 | reading back the rendering of n gives n |
| `Decimal.CanonicalRoundTrip` | src/otp/pad.rs:55 | rendering the value of a digit string without a superfluous leading zero gives that string back |
| `Decimal.DecimalStringLength` | src/otp/pad.rs:47-48 | a number with k digits renders to exactly k characters |

## Left out

- `PadCollection::to_json` / `from_json` (src/otp/pad.rs:93-99) and their round-trip test: they delegate to `serde_json`, which is not part of this model.
- The operating-system random source (`OsRng`, `gen_range`) is modelled only by the range its draws fall in. The model has no entropy, no distribution, no independence between draws and no failure of the source.
- `OtpPad.PadGenerator.GeneratePad`: the precondition `nbKeys * 5 <= 255` stands for Rust's overflow check on the `u8` product. A release build would wrap the product instead, and that wrap-around is not modelled.
- `FromStr.ParseU8Meets`, `FromStr.ParseI32Meets`: only success or failure and the parsed value are modelled. The error kind (empty, invalid digit, overflow) is not modelled, because `parse_int_arg` discards it.
- `OtpPad.PadCollection.DeletePad` replaces the sequence of pads as a whole. How `Vec::retain` moves elements inside the buffer is not modelled.
- Rust's `&str` is UTF-8 bytes and Dafny's `string` is a sequence of characters. Every character outside '0'..'9', '+' and '-' is rejected in both, so the outcomes agree.
- src/utils.rs is not part of this model: it reads the wall clock, and it is not compiled into the program.
- The command-line layer (src/main.rs, src/commands/*.rs) and file writing (src/file.rs) are not part of this model. They are argument dispatch, printing and I/O.
