# CrawlerJus core, modelled in Dafny

CrawlerJus looks up lawsuits at the Rio Grande do Sul state court (TJRS) by their unified
process number (NPU). An NPU has 20 digits, laid out as `NNNNNNN-DD.AAAA.J.TR.OOOO`, and its
two check digits `DD` follow ISO/IEC 7064 MOD 97-10.

The service works in these steps:

- It cleans the number and validates the check digits.
- It derives the district code (the *comarca*) from the last four digits.
- It looks the number up in a cache.
- On a miss, it fetches two JSON documents from the court portal: the case record and its
  movements.
- It keeps a few fields of each document, merges the two and caches the result.

The portal sits behind an authorization step. The crawler solves a proof-of-work challenge
(the first `i` whose SHA-256 digest of `salt + str(i)` matches). It then submits the answer
as a base64-encoded compact JSON payload. It also turns the user name it is given into an
obfuscated base64 credential.

The project has these modules:

| module | file | models |
|---|---|---|
| `Wrappers` | wrappers.dfy | `Option` and `Result` |
| `Text` | text.dfy | Python string helpers: `str.isspace()`, ASCII digits, `int()` on digit strings, `str(n)`, clamped slicing, character deletion, `str.replace(pat, "")` |
| `Util` | util.py | `remove_blank_space`, `remove_special_characters`, `extract_comarca`, the two URL builders, `valida_npu` |
| `Schema`, `SchemaExamples` | schema.dfy | `format_cnj`, `calc_digito_verificador`, the `normalize_and_validate_npu` validator, and the worked number `5001646-66.2026.8.21.0008` |
| `Base64` | base64.dfy | RFC 4648 section 4 encoding, with a strict decoder as its partner |
| `Json` | json.dfy | the parsed JSON value and the Python operations the extractors apply to it: `dict.get`, truthiness, `[0]`, iteration |
| `JsonText` | json_text.dfy | `json.dumps(v, separators=(',', ':'))` with `ensure_ascii`, and a strict RFC 8259 reader, which is the serializer's partner |
| `Crawler` | crawler.dfy | `solve_challenge` (a method with a loop), `obfuscate`, the `altcha` payload and token, `extract_basic_data`, `extract_movimentos` |
| `SearchService` | search_service.dfy | `SearchService.search_npu` as a method over the outcomes of the cache read and the two fetches, and the effects it asks for, in order |

Where Python would raise on an input the service can pass, the model yields a value saying so:

- `valida_npu` returns `None` for the `ValueError` of `int(npu[7:9])`, which sits outside its
  `try`.
- A `.get` on a non-dict is `Err(AttributeError)`.
- A refused search carries the HTTP status it would raise.

Three helpers instead take a precondition for inputs on which Python would raise; see "Left
out".

## Model

| member | source | states |
|---|---|---|
| `Util.RemoveBlankSpace` | crawler_jus/util.py:4-7 | the result is the input's whitespace-separated words, in order, joined by single spaces; splitting it again gives the same words; no leading, trailing or doubled whitespace |
| `Util.RemoveSpecialCharacters` | crawler_jus/util.py:10-20 | the result holds none of the 20 characters of the class, has no leading or trailing whitespace, and has no run of two whitespace characters |
| `Util.RemoveSpecialCharactersKeeps` | crawler_jus/util.py:13-19 | the cleaning only deletes: the output's non-whitespace characters are exactly the input's non-special, non-whitespace characters, in order |
| `Util.RemoveSpecialCharactersIdempotent` | crawler_jus/util.py:13-19 | cleaning a cleaned string changes nothing |
| `Util.RemoveSpecialCharactersFirstStep` | crawler_jus/util.py:13-16 | deleting the special characters beforehand changes nothing: the cleaning of a string equals the cleaning of that string with the class deleted |
| `Util.RemoveSpecialCharactersDigits` | crawler_jus/util.py:13-19 | a string of digits is returned unchanged |
| `Util.ExtractComarca` | crawler_jus/util.py:22-26 | the district code is the last four digits with leading zeros dropped: a canonical numeral of 1 to 4 characters |
| `Util.UrlsDifferOnlyInEndpoint` | crawler_jus/util.py:28-32 | both URLs start with the same host and path prefix, end with the same `?numeroProcesso=<npu>&codComarca=<comarca>`, and are never equal |
| `Util.CheckDigits` | crawler_jus/util.py:52 | `98 - (body * 100) % 97` lies in [2, 98], and appending it to the body gives a number that is 1 modulo 97 |
| `Util.CheckDigitsUnique` | crawler_jus/util.py:52-56 | a pair of check digits equals the computed one exactly when it lies in [2, 98] and `body * 100 + dv` is 1 modulo 97 |
| `Util.ValidaNpu` | crawler_jus/util.py:34-56 | after deleting `.` and `-`: a non-numeric body gives False; a numeric body with a non-numeric check pair raises; otherwise the number is accepted exactly when the check pair satisfies MOD 97-10 |
| `Util.ValidaNpuRejectsOutOfRange` | crawler_jus/util.py:52-56 | check digits 00, 01 and 99 are never accepted |
| `Schema.FormatCnjLayout` | api/schema.py:9-11 | the mask of 20 digits is 25 characters long, with `-` at 7, `.` at 10, 15, 17 and 20, and the digit groups in order between them |
| `Schema.FormatCnjRoundTrip` | api/schema.py:9-11 | deleting `.` and `-` from the mask, as `valida_npu` does, gives the 20 digits back; so does `remove_special_characters` |
| `Schema.FormatCnjUnmask` | api/schema.py:9-11 | any deletion that removes `-` and `.` and keeps digits undoes the mask |
| `Schema.CalcDigitoVerificador` | api/schema.py:13-22 | two zero-padded digits whose value, appended to the body, satisfies MOD 97-10 |
| `Schema.CalcIgnoresCheckPair` | api/schema.py:20 | the computed digits do not depend on positions 7 and 8 of the input |
| `Schema.CalcAgreesWithValidaNpu` | api/schema.py:13-22 | for every 20-digit string, `calc_digito_verificador(d) == d[7:9]` exactly when `valida_npu(d)` accepts it: the two implementations agree |
| `Schema.FilledCheckPairAccepted` | api/schema.py:36-40 | writing the computed digits into positions 7 and 8 of any 20 digits gives a number `valida_npu` accepts |
| `Schema.SameTwoDigits` | api/schema.py:22 | two two-digit strings with the same value are equal, so comparing the padded text is comparing the values |
| `Schema.NormalizeAndValidateNpu` | api/schema.py:27-45 | a non-string is refused; a failed normalisation is refused; the result is accepted exactly when the normalised digits pass `valida_npu`, and it is then `format_cnj` of those digits, a 25-character mask that unmasks to those digits and passes `valida_npu` itself |
| `Schema.MaskedValid` | api/schema.py:45 | `valida_npu` judges the masked number as it judges the bare digits |
| `Schema.CheckDigitsExample` | crawler_jus/crawler.py:174 | the body `500164620268210008` has check digits 66 |
| `SchemaExamples.MaskExample` | tests/test_util.py:9-12 | cleaning `5001646-66.2026.8.21.0008` gives `50016466620268210008` |
| `SchemaExamples.MaskExampleLayout` | api/schema.py:9-11 | the mask of `50016466620268210008` is `5001646-66.2026.8.21.0008` |
| `SchemaExamples.ValidaExample` | crawler_jus/util.py:34-56 | `valida_npu("50016466620268210008")` accepts |
| `Base64.EncodeLength` | crawler_jus/crawler.py:71 | the encoding of n bytes has 4 * ceil(n / 3) characters |
| `Base64.EncodeAlphabet` | crawler_jus/crawler.py:71 | every character of an encoding is in the alphabet, except `=` padding in the last two places |
| `Base64.DecodeEncode` | crawler_jus/crawler.py:71 | decoding an encoding gives the bytes back |
| `Base64.EncodeInjective` | crawler_jus/crawler.py:97 | different byte strings never share an encoding |
| `Base64.DecodeAsciiEncode` | crawler_jus/crawler.py:71 | base64 of the UTF-8 bytes of an ASCII text decodes to that text |
| `Json.Lookup` | crawler_jus/crawler.py:132 | a key is found exactly when some field carries it, and the value found is that field's |
| `Json.GetOr` | crawler_jus/crawler.py:133 | `.get` fails, with AttributeError, exactly on a non-dict; on a dict it gives the value stored under the key, or the default when no field carries it |
| `Json.LookupUnique` | crawler_jus/crawler.py:132-133 | in a dict without repeated keys, `.get` of any field's key gives that field's value |
| `Json.First` | crawler_jus/crawler.py:132 | `[0]` succeeds exactly on a non-empty list or string, and gives a list's first item |
| `Json.Iterate` | crawler_jus/crawler.py:139 | iteration visits a list's items; it fails exactly on None, booleans and numbers |
| `JsonText.Hex4RoundTrip` | crawler_jus/crawler.py:96 | the four hex digits of a `\uXXXX` escape read back as the number written |
| `JsonText.EscapeCharParse` | crawler_jus/crawler.py:96 | the escape of any character reads back as that character, including surrogate pairs beyond the Basic Multilingual Plane |
| `JsonText.EscapeParse` | crawler_jus/crawler.py:96 | an escaped string reads back as the string, up to its closing quote |
| `JsonText.NumberParse` | crawler_jus/crawler.py:96 | an integer reads back as itself when no digit follows it |
| `JsonText.SerializeParse` | crawler_jus/crawler.py:96 | the compact text of any value reads back as that value, leaving what follows untouched |
| `JsonText.ParseSerialize` | crawler_jus/crawler.py:96 | `json.loads(json.dumps(v, separators=(',', ':'))) == v` for every value |
| `JsonText.SerializePrintable` | crawler_jus/crawler.py:96-97 | with `ensure_ascii` the text is printable ASCII, so `.encode()` gives one byte per character |
| `JsonText.MemberPlain` | crawler_jus/crawler.py:96 | a key of plain printable characters is written as `"key":value`, with no space |
| `JsonText.FiveFields` | crawler_jus/crawler.py:96 | a five-member dict is written as its members in order, separated by bare commas, inside braces |
| `Crawler.FirstSolution` | crawler_jus/crawler.py:73-80 | the first `i` in [from, maxnumber] whose digest matches; None exactly when none matches, including when maxnumber < from |
| `Crawler.SolveChallenge` | crawler_jus/crawler.py:73-80 | the loop returns `i` with `0 <= i <= maxnumber`, `sha(salt + str(i)) == challenge` and no smaller match; it returns None exactly when no `i` in [0, maxnumber] matches |
| `Crawler.SolvesPlanted` | crawler_jus/crawler.py:74-79 | for a challenge made from `n <= maxnumber`, the solver finds some `i <= n` with the same digest, and exactly `n` when no smaller candidate collides |
| `Crawler.Factor` | crawler_jus/crawler.py:62 | `id % 60029 + 90767` lies in [90767, 150795] for every integer id |
| `Crawler.Obfuscate` | crawler_jus/crawler.py:59-71 | the credential exists exactly when the id part of the user name parses as an integer |
| `Crawler.ObfuscateDecodes` | crawler_jus/crawler.py:64-71 | the credential decodes to the user name, `:`, then the 64-character lowercase hex digest of `"@" + str(n) + "@" + str(id * n) + "!"` |
| `Crawler.HashInputInjective` | crawler_jus/crawler.py:60-66 | different ids give different hashed strings |
| `Crawler.IntDecimalInjective` | crawler_jus/crawler.py:66 | `str(i)` is injective on integers |
| `Crawler.AltchaPayload` | crawler_jus/crawler.py:88-94 | the payload is a dict with exactly the keys `algorithm`, `challenge`, `number`, `salt`, `signature`, in that order, with the solver's result as `number` |
| `Crawler.AltchaText` | crawler_jus/crawler.py:96 | the payload text is the five members in order, separated by bare commas, inside braces |
| `Crawler.TokenRoundTrip` | crawler_jus/crawler.py:96-97 | decoding a token's base64 and reading its JSON gives the payload back |
| `Crawler.AltchaTokenRoundTrip` | crawler_jus/crawler.py:88-97 | the submitted `altcha` value decodes to exactly the five-member payload |
| `Crawler.Project` | crawler_jus/crawler.py:134-140 | projecting an item fails exactly on a non-dict; otherwise the result has exactly the given keys, in order, each with the item's `.get` value |
| `Crawler.ProjectAll` | crawler_jus/crawler.py:157-163 | the list comprehension keeps length and order, projecting every item; it fails exactly when some item does |
| `Crawler.Basic` | crawler_jus/crawler.py:132 | the record is `data[0]`, or an empty dict when `data` is missing, None or empty; it fails exactly on a non-dict document or a truthy `data` that is neither a list nor a string |
| `Crawler.Partes` | crawler_jus/crawler.py:133-140 | the parties fail with AttributeError on a non-dict record or `partes`; otherwise they succeed exactly when iterating `partes.parte` (default `[]`) gives only dicts |
| `Crawler.ExtractBasicData` | crawler_jus/crawler.py:130-149 | exactly the keys `nomeClasse`, `nomeNatureza`, `classeCNJ`, `assuntoCNJ`, `partes`, the first four read from the record, the last the projected parties; fails exactly when reading the record or its parties fails |
| `Crawler.ExtractMovimentos` | crawler_jus/crawler.py:152-165 | a non-dict document fails; a missing, None or empty `data` gives an empty list; otherwise it succeeds exactly when iterating `data` gives only dicts (a list of dicts) |
| `Crawler.BasicDataFallback` | crawler_jus/crawler.py:132-147 | with `data` missing, None or empty, every field is None and `partes` is empty |
| `Crawler.BasicDataPartes` | crawler_jus/crawler.py:133-140 | `partes` has the length and order of `partes.parte`, each entry the projection of its party |
| `Crawler.MovimentosPreserveOrder` | crawler_jus/crawler.py:155-163 | the movements have the length and order of `data`, each the projection of its entry |
| `Crawler.MovimentoFields` | crawler_jus/crawler.py:158-161 | each movement has exactly the keys `data` and `descricao` |
| `SearchService.FirstFailure` | crawler_jus/services/search_service.py:57-63 | no failure exactly when every fetch answered; otherwise the failure is that of the first failed fetch, in order |
| `SearchService.Merge` | crawler_jus/services/search_service.py:73 | `{**fields, key: value}` maps the key to the value, leaves every other key as it was, and grows by one exactly when the key is new |
| `SearchService.Assemble` | crawler_jus/services/search_service.py:67-73 | any parse or extraction failure is a 502; otherwise the result is a non-empty dict whose `movimentos` are the extracted movements and whose every other key reads as in `extract_basic_data`'s dict |
| `SearchService.SearchNpu` | crawler_jus/services/search_service.py:20-84 | an invalid number is refused with 400 before any cache read or fetch; a valid one is looked up under its key first; a truthy hit is returned with no fetch or write, and a failed read counts as a miss; on a miss both URLs are fetched and the first failure decides; otherwise the merged result is stored and returned; the write's outcome is swallowed, so it is not an input |
| `SearchService.ValidNpuIsDigits` | crawler_jus/services/search_service.py:30-35 | a cleaned number that passes `valida_npu` is all digits and at least eight long, so, with `int()` read on digit strings only, `extract_comarca` cannot fail on it |
| `SearchService.CacheKeyInjective` | crawler_jus/services/search_service.py:35-36 | different numbers never share a cache key |
| `SearchService.MergedNeverEmpty` | crawler_jus/services/search_service.py:73-76 | the merged result always holds `movimentos`, so the 404 branch is never taken |

## Left out

- HTTP and Redis I/O are outside the model. This covers `create_authorization`,
  `request_auth`, `request_page` and `main` (crawler_jus/crawler.py:82-127 and 170-201), and
  the cache (`get_cache`/`set_cache`).
  - `SearchService.SearchNpu` takes their outcomes as parameters: the cache read and one
    result per fetch. The cache write's failure is swallowed, so its outcome is not one.
  - It returns the effects it asks for (cache read, two fetches, cache write) in order.
  - crawler_jus/cache.py is not part of this model.
- `SearchService.SearchNpu` models the service as if it called `extract_basic_data`. As
  written, it calls `self.crawler.extract_basic_data_partes`, which `Crawler` does not define,
  and that call would fail with AttributeError and end in a 502.
  - It also calls `request_page(url)` with one argument, while the method takes `auth` and
    `url`.
  - The fetches are parameters, so neither call is modelled as written.
- `request_page` reads `.text` from a call it has not awaited (crawler_jus/crawler.py:125-127).
  This is not modelled, because the fetch result is a parameter.
- The tenacity retries (crawler_jus/crawler.py:114, 122) and the concurrency of
  `asyncio.gather` and `asyncio.to_thread` are library behaviour. The two fetch outcomes are
  a given pair.
- A `BaseException` that is not an `Exception` returned by `gather` would pass the
  classification loop unraised. Such exceptions are not modelled: every failure is an HTTP
  error, a typed TJRS error, or another `Exception`.
- SHA-256 is a function parameter `sha`. Where the shape of the digest matters, a
  precondition says that every digest is 64 lowercase hexadecimal characters.
- `normalize_npu_to_20_digits` is not part of this model. `Schema.NormalizeAndValidateNpu`
  takes it as a parameter whose every result is 20 ASCII digits; `None` stands for its
  raising.
- `SearchService.SearchNpu`: a number with whitespace inside its body, such as `123456 76`,
  is refused with 400 in the model, because `int()` reads digit strings only. The source's
  `int()` accepts it (`int("123456 ")` is 123456, whose check digits are 76), so `valida_npu`
  passes it; `extract_comarca` then raises an unhandled ValueError on `int("6 76")`, which the
  service answers with 500.
- `Schema.FormatCnj` requires more than 13 characters, where Python raises IndexError on
  `digits[13]` (api/schema.py:11); its only caller passes 20 digits.
- `Schema.CalcDigitoVerificador` requires a digit-only body, where Python raises ValueError on
  `int(base)` (api/schema.py:21); its only caller passes 20 digits.
- `Util.ExtractComarca` requires the last four characters to be digits, where Python raises
  ValueError on `int(npu[-4:])` (crawler_jus/util.py:24); the service calls it only after
  `valida_npu` accepts, which `SearchService.ValidNpuIsDigits` shows is enough in the model.
- `Util.ValidaNpu` does not model the limit of 4300 digits (CPython 3.11 and later) on
  converting between int and str. With a body longer than that, `int()` raises inside the
  `try` and the source returns False, while the model judges the check digits. The API sends
  only 25-character masks.
- `Crawler.Obfuscate` does not model the same limit either: an id of more than 4300 digits
  makes `int()` raise, and a slightly shorter one makes `str()` raise in the f-string. The
  model returns a credential for both.
- Python `int()` is modelled only on ASCII digit strings, with an optional sign for the
  obfuscation id. Its leniency is not modelled: surrounding whitespace, underscores and
  non-ASCII digits.
- `Crawler.ExtractBasicData` and `Crawler.ExtractMovimentos` take the parsed document.
  `json.loads` of arbitrary portal text is not modelled: whitespace, floats, duplicate keys.
  A document that does not parse is a fetch answer of `None`, which the service turns into a
  502.
- JSON numbers are integers. Floats are left out: neither the payload nor the extractors
  read them.
- The `detail` strings of the raised exceptions and the logging calls are not modelled. Only
  the status or the error kind is.
- The wiring in api/router.py and api/error_handlers.py (routes, the exception-to-status
  table) is not part of this model.
