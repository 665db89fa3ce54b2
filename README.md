# Registry record normalizer of the Telegram INN bot

The bot takes a 10-character taxpayer number (INN), fetches the first matching row from
the Russian legal-entity registry, and replies with three display strings built from that
row's raw upper-case fields:

- the **name**: the legal form in lower case, then the short name in guillemets;
- the **numbers**: a fixed `(ОГРН …, ИНН …, КПП …)` block;
- the **address**: the street part, then the city, then `Россия`, then the postal index.

This project models the class `InputData`, which holds the raw fields and computes the
three strings. It also models the message classification in `echo_message` and the
concatenation of the reply. The model is in four modules:

- `Casing` (casing.dfy): Python's `str.lower()` and `str.title()` over an explicit case
  table. The table holds Latin A–Z/a–z and Russian А–Я/а–я with Ё/ё.
- `PyStr` (pystr.dfy): Python's `in`, `str.split(sep)`, `sep.join(parts)` and
  `str.replace(old, new)`, with the facts about them that the formatters need. Split and
  replace are defined the way CPython computes them: find the leftmost occurrence
  (`FirstIndex`, i.e. `str.find`), cut or rewrite there, and go on after it.
- `Formatters` (formatters.dfy): `get_final_name`, `get_final_numbers` and
  `get_final_address` as pure functions (`FinalName`, `FinalNumbers`, `FinalAddress`),
  with lemmas about their output.
- `Bot` (bot.dfy): the stateful `InputData` class and `EchoMessage`. `InputData` keeps
  `name`, `ogrn`, `inn` and `kpp` as one-element tuples, as the trailing commas of its
  constructor make them. Each `get_final_*` method stores its result in its own field and
  changes no other field; the field-level `modifies` clause guarantees that.
  `get_final_address` raises `IndexError` when the address has no `", "`. The model
  returns `Err(IndexError)` and leaves the stored field as it was.

Where the code and a plain-language reading of it differ, the model follows the code:

- `split('"')` followed by `''.join(parts[1:])` removes **every** quotation mark from the
  short name, not only the opening one (`NameLayout`).
- `str.replace` rewrites **every** occurrence of a keyword (`StreetUlica`,
  `ReplaceIsSplitJoin`).
- The street segments are joined with a single space, not with `", "`.
  `"123456, CITY NAME, УЛИЦА EXAMPLE, 1"` becomes
  `"Адрес: улица   Example 1, City Name, Россия, 123456"`, with three spaces after
  `улица` and no comma before `1` (`AddressWithStreet`).
- An address with exactly two segments does not fail. Its street part is empty and
  the result is `"Адрес:, <city>, Россия, <index>"` (`AddressWithoutStreet`). Only an
  address with no `", "` fails (`AddressFailsIff`).

## Model

| member | source | states |
|---|---|---|
| Casing.Lower | bot.py:48 | `lower()` keeps the length, leaves no upper-case letter, changes only upper-case letters, and maps each one to its lower-case partner |
| Casing.LowerAppend | bot.py:48 | lower-casing distributes over concatenation |
| Casing.TitleAt | bot.py:85-87 | `title()` position by position: a character is lower-cased when the input character before it is cased, and upper-cased otherwise |
| PyStr.FirstIndexSpec | bot.py:47 | the search finds the leftmost occurrence: None exactly when the pattern does not occur, otherwise an occurrence with none before it |
| PyStr.Split | bot.py:47 | `split` always returns at least one piece |
| PyStr.SplitJoin | bot.py:83 | joining the pieces of a split with the separator gives back the original string |
| PyStr.SplitPiecesFree | bot.py:83 | no piece of a split contains the separator |
| PyStr.SplitCount | bot.py:83-85 | a split has two or more pieces exactly when the separator occurs |
| PyStr.ReplacePastFirst | bot.py:86 | when the text does not start with the pattern, `replace` keeps its first character and goes on with the rest |
| PyStr.ReplaceIsSplitJoin | bot.py:86-97 | `replace` equals a split on the pattern joined with the replacement, so every occurrence is rewritten |
| PyStr.ReplaceCaseOnly | bot.py:86-97 | replacing a word by its same-length lower-case form keeps the length and changes the string only in case |
| PyStr.ReplaceEliminates | bot.py:89 | a replacement that shares no character with the pattern leaves no occurrence of the pattern |
| PyStr.ReplaceLeavesNone | bot.py:92-97 | a replacement at least as long as the pattern, without the pattern's first character and starting with no proper suffix of it, leaves no occurrence of the pattern |
| PyStr.RemoveAll | bot.py:49 | the removal reference: no `c` is left and every other character keeps its count |
| PyStr.JoinSplitRemoves | bot.py:47-49 | `''.join(s.split(c))` removes every `c` from `s` |
| PyStr.JoinChars | bot.py:61 | `''.join` over the characters of a string gives the string back |
| Formatters.NameLayout | bot.py:46-50 | the name is the text before the first `"` lower-cased, then `«`, then the rest with every `"` removed, then `» `; with no `"` it is the whole name lower-cased followed by `«» ` |
| Formatters.NameShortPart | bot.py:47-50 | the legal-form part and the short name hold no quotation mark |
| Formatters.NumbersInjective | bot.py:58-60 | the numbers block loses nothing: equal blocks come from equal OGRN, INN and KPP (OGRN and INN without commas) |
| Formatters.AddressFailsIff | bot.py:83-85 | the address fails with IndexError exactly when it contains no `", "` |
| Formatters.AddressWithoutStreet | bot.py:83-102 | with exactly one `", "`, the index is the text before it, the city is made from the text after it, the street part is empty and the result is `Адрес:, city, Россия, index` |
| Formatters.AddressWithStreet | bot.py:83-102 | with two or more `", "`, the index is the text before the first, the city is the title-cased text up to the second with `Город` lower-cased, and the street is everything after the second with each `", "` turned into a space, title-cased as a whole, then rewritten by the keyword chain |
| Formatters.AddressTail | bot.py:84-102 | every result for an address with a `", "` ends with `, ` + the city (made from the text between the first and the next `", "`, or to the end) + `, Россия, ` + the unchanged index |
| Formatters.CityUpToCase | bot.py:85-86 | the city keeps its length and differs from the title-cased segment only in case |
| Formatters.StreetUlica | bot.py:88-91 | when `Улица` occurs, the line is `Адрес: улица ` followed by the street part with every `Улица` replaced by a space, and no `Улица` is left |
| Formatters.StreetLowerInPlace | bot.py:92-99 | without `Улица`: when `Набережная` occurs it decides, whatever else occurs, and the line is `Адрес: ` followed by the street part split on `Набережная` and joined with `набережная`, with no `Набережная` left; otherwise the same for `Переулок`/`переулок`; either way the text after `Адрес: ` has the street part's length and differs from it only in case |
| Formatters.FirstRuleWins | bot.py:88-99 | with an ordered rule table, the earliest rule whose keyword occurs decides, whatever later keywords are present |
| Formatters.NoRuleApplies | bot.py:100-102 | with no keyword present, the line is `Адрес:` followed directly by the street part, with no space |
| Formatters.StreetLineIsRuleTable | bot.py:88-102 | the if/elif chain equals the ordered table Улица, Набережная, Переулок, read first match first |
| Bot.InputData.constructor | bot.py:21-32 | the raw fields are stored, four of them as one-element tuples, and no display field is set |
| Bot.InputData.GetFinalName | bot.py:34-51 | stores and returns FinalName of the joined name tuple |
| Bot.InputData.GetFinalNumbers | bot.py:53-61 | stores FinalNumbers of the joined tuples and returns the stored string unchanged |
| Bot.InputData.GetFinalAddress | bot.py:63-104 | returns FinalAddress of the address and stores it; on IndexError it stores nothing |
| Bot.Classify | bot.py:166-177 | the greeting, every 10-character text and everything else each go to their own branch |
| Bot.EchoMessage | bot.py:127-177 | the greeting gets the prompt, any other text gets the rejection unless it has 10 characters; a 10-character text gets name + numbers + address of the looked-up row, a lookup failure when the registry gives no row, or the address's IndexError; it fails exactly in those two cases |

## Left out

- The Telegram bot object, the handler decorator, `send_message` and `bot.polling()`
  (bot.py:1-5, 164-180). They are chat transport. `EchoMessage` returns the reply text
  instead of sending it.
- `ReceivedInn.request_data` (bot.py:127-145) is an HTTP exchange with the registry service.
  `EchoMessage` takes the registry as a function from the query text to the five raw
  fields of the first row, or to None. None stands for every way the lookup raises: a
  failed request, a response without the search token (bot.py:134) or without a row
  (bot.py:135-139). The model does not tell these exceptions apart.
- `ReceivedMessage` (bot.py:107-113): an empty class.
- The `int` alternative of `name` (bot.py:22). `''.join` would raise on it, and callers
  pass strings, so `name` is a string.
- Casing.Lower, Casing.TitleAt: full Unicode case mapping is not modelled. Only the
  Latin and Russian letters of the table are cased, and every other character counts as
  uncased and stays unchanged.
- PyStr.Replace, PyStr.Split: modelled for a non-empty pattern only. The source calls
  them only with non-empty literals.
- The string operations on concrete inputs are not worked out as lemmas. The values
  above follow from `AddressWithStreet` and `NameLayout`.
