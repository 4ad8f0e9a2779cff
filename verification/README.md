# Kakyo in Dafny

A verified model of Kakyo, a small i18n library. A Kakyo instance owns a
folder of locale files. Each file exports response sets grouped by locale.
At construction the instance merges all files into one table (locale to
response key to template). `get(key, data, locale)` looks up a template
under the given locale, or under the default locale when none is given. It
then renders the template, replacing every `#{name}#` placeholder with
`data[name]`. `reload()` clears the table and builds it again.

Files:

- `wrappers.dfy`: module `Wrappers`, with `Option` and `Result`.
- `jsvalue.dfy`: module `JsValue`. It defines the values a data record may
  hold (strings and integers), JavaScript truthiness, and `String(v)` with
  its decimal numerals.
- `util.dfy`: module `Util`, modelling lib/helpers/Util.js. It holds the
  `readDirectory` path joining and the template renderer. `Render` is
  `Fill(Parse(t), data)`:
  - `Parse` finds the matches of the global pattern `#{(.*?)}#` left to
    right;
  - `Fill` applies the replacement callback to each match.

  `Parse` is pinned down independently of its code: it gives the unique
  *canonical* decomposition of the template (`ParseUnparse`, `ParseCanonical`,
  `CanonicalUnique`).
- `kakyo.dfy`: module `Kakyo`, modelling lib/Kakyo.js. It has the merge
  specification (`MergeAll` over the declarations of all files, flattened in
  listing order) and the class `Kakyo`. The class has the fields
  `folderPath`, `defaultLocale` and `localizations`, and the methods
  `Initialize`, `Get` and `Reload`.

Three behaviours of the code are worth stating plainly:

- **Merge rule.** `_initialize` adds a locale only if it is not in the table
  yet (lib/Kakyo.js:33-34). A later file's declaration of a locale already
  in the table is dropped whole, even for keys the first file lacks.
  `MergeFirstWins` and `NoPerKeyUnion` state this.
- **Unreadable folder.** An unreadable folder makes `readDirectory` return
  `undefined` (lib/helpers/Util.js:30-32), so the `for…of` at
  lib/Kakyo.js:29 throws before the table is touched. `Initialize` returns
  `false` and leaves the table as it was. `Reload` fails with
  `UnreadableDirectory` and leaves the table empty, because it cleared the
  table first (lib/Kakyo.js:73-90).
- **Falsy values.** A falsy value (`""` or `0`) in the data record is
  treated as missing (lib/helpers/Util.js:44). So is an empty template
  under a response key (lib/Kakyo.js:47-66).

## Model

| member | source | states |
|---|---|---|
| JsValue.ToString | lib/helpers/Util.js:48 | the string a value is inserted as: a truthy value never gives `""`; an integer gives a numeral whose sign character is `-` exactly when it is negative |
| JsValue.NatToDecimal | lib/helpers/Util.js:48 | the numeral of a natural number is non-empty, all digits, and has no leading zero unless the number is zero |
| JsValue.DecimalRoundTrip | lib/helpers/Util.js:48 | reading the numeral of `n` back gives `n` |
| JsValue.ToStringExample | lib/helpers/Util.js:48 | `String(1337)` is `"1337"` |
| JsValue.IntToStringRoundTrip | lib/helpers/Util.js:48 | an integer's string form is a well-formed numeral that reads back as the same integer |
| Util.ReadDirectory | lib/helpers/Util.js:20-33 | an unreadable listing gives no result; otherwise there is one path per entry, in listing order, the i-th being `path + "/" + names[i]` |
| Util.Parse | lib/helpers/Util.js:43 | the matches of the global pattern `#{(.*?)}#` with the text between them; pinned down independently by `ParseUnparse`, `ParseCanonical` and `CanonicalUnique`, stepped through by `ParseLiteralCons` and `ParseSlotCons` |
| Util.Fill | lib/helpers/Util.js:43-49 | the replacement callback run on every match in order; characterised by `FillFailsOnFirstMissing` and `FillAppend` |
| Util.Render | lib/helpers/Util.js:42-50 | `renderText`: scanning followed by replacement; its behaviour is stated by the `Render…` lemmas below |
| Util.FindClose | lib/helpers/Util.js:43 | the non-greedy `(.*?)}#`: the result is the first `}#` at or after the start with no line terminator before it; no result means no such `}#` exists |
| Util.ParseUnparse | lib/helpers/Util.js:43 | the scanned pieces spell the template again: text between matches is kept verbatim and in order |
| Util.ParseCanonical | lib/helpers/Util.js:43 | the scan never leaves a literal where a match could start, and every captured name has no line terminator and no `}#` (shortest match) |
| Util.CanonicalUnique | lib/helpers/Util.js:43 | any canonical decomposition is what scanning its text yields, so the scan is the leftmost, non-overlapping, shortest-match scan and nothing else |
| Util.ParseFindsPlaceholder | lib/helpers/Util.js:43 | the scan finds a placeholder exactly when the template contains some `#{…}#` occurrence |
| Util.ParseLiteralCons | lib/helpers/Util.js:43 | a character where no match starts is scanned as a literal and the scan goes on from the next character |
| Util.ParseSlotCons | lib/helpers/Util.js:43 | `#{n}#` with a capturable name is scanned as one placeholder named `n`, and the scan resumes after `}#` |
| Util.FillFailsOnFirstMissing | lib/helpers/Util.js:43-49 | replacement fails exactly when some placeholder's data is missing or falsy, and then names the first such placeholder in left-to-right order; no partial string is returned |
| Util.FillAppend | lib/helpers/Util.js:43-49 | replacement works piece by piece: filling a concatenation is filling the first part, then the second, with the first failure winning |
| Util.RenderNoPlaceholder | lib/helpers/Util.js:43 | a template without any `#{…}#` occurrence comes back unchanged for any data |
| Util.RenderWithoutData | lib/helpers/Util.js:44-46 | with empty data, rendering fails if and only if the template has a placeholder |
| Util.RenderSlotThenRest | lib/helpers/Util.js:43-48 | a leading `#{n}#` either fails naming `n` or becomes `String(data[n])` inserted as is, and scanning resumes right after `}#` |
| Util.RenderLiteralThenRest | lib/helpers/Util.js:43 | a character where no match starts is copied, and scanning moves on by one character |
| Util.RenderPlainPrefix | lib/helpers/Util.js:43 | a run of text without `#` is copied through unchanged |
| Util.RenderIdentityData | lib/helpers/Util.js:43-48 | when each placeholder's value is its own placeholder text, the template comes back unchanged: placeholder text is replaced by its value and all other text is kept in place (that inserted values are not scanned again is stated by `RenderSlotThenRest` and `RenderDoesNotRescan`) |
| Util.RenderCongratsExample | test/main.test.js:3-15 | the test's template with `username` "John Doe" and `level` 1337 renders to "Congrats John Doe you are now level 1337!" |
| Util.RenderCongratsWithoutData | test/main.test.js:17-21 | the test's template with empty data fails, naming `username` |
| Util.RenderDoesNotRescan | lib/helpers/Util.js:43-48 | a value that looks like a placeholder (`#{b}#`) appears literally in the output, although `b` has data |
| Kakyo.Declare | lib/Kakyo.js:33-35 | one declaration, added only when its locale is not in the table yet; its effect is stated by `MergeKeys`, `MergeKeepsExisting` and `MergeFirstWins` |
| Kakyo.MergeAll | lib/Kakyo.js:29-37 | the declarations applied to the table in order; characterised by `MergeKeys`, `MergeKeepsExisting`, `MergeFirstWins` and `MergeAppend` |
| Kakyo.Modules | lib/Kakyo.js:27-30 | the module loaded from each listed path, in listing order; `Initialize` is proved against it |
| Kakyo.Flatten | lib/Kakyo.js:29-32 | the declarations of all modules, module after module; `FlattenContents` states what it holds |
| Kakyo.MergeKeys | lib/Kakyo.js:29-36 | after merging, the locales are the old ones plus exactly the declared ones |
| Kakyo.MergeKeepsExisting | lib/Kakyo.js:33 | a locale already in the table keeps its response set |
| Kakyo.MergeFirstWins | lib/Kakyo.js:32-35 | a new locale gets, as a whole, the response set of its first declaration in listing order |
| Kakyo.MergeAppend | lib/Kakyo.js:29-37 | merging the declarations of one file after another is merging their concatenation, so the nested loops compute one merge in listing order |
| Kakyo.FlattenContents | lib/Kakyo.js:29-32 | the flattened declarations are exactly those of some loaded file |
| Kakyo.InitialLocales | lib/Kakyo.js:26-38 | starting from an empty table, the locales are exactly the union of the locales all loaded files declare |
| Kakyo.NoPerKeyUnion | lib/Kakyo.js:33-34 | two files declaring the same locale give it only the first file's response set, whatever keys the second holds |
| Kakyo.Kakyo.constructor | lib/Kakyo.js:15-20 | stores the folder, keeps the default locale only when it is truthy (so it is unset or non-empty), and builds the table from an empty one |
| Kakyo.Kakyo.Initialize | lib/Kakyo.js:26-38 | keeps `Valid`; with a readable folder the table becomes the first-wins merge of the old table with every loaded file's declarations in listing order; an unreadable folder fails and changes nothing |
| Kakyo.Kakyo.Get | lib/Kakyo.js:47-66 | on an instance whose default locale is unset or non-empty (`Valid`, which the constructor establishes and every method keeps): fails with "no locale" when no truthy locale is passed and no default is set; otherwise uses the passed locale if truthy, else the default. Then it fails naming the locale when the locale is absent, fails naming key and locale when the response is absent or empty, and otherwise returns exactly the rendering of the template, or the missing placeholder's error. It changes nothing |
| Kakyo.Kakyo.Reload | lib/Kakyo.js:73-90 | keeps `Valid` and leaves the folder and default locale as they were; with a readable folder it resolves `true` and the table is what building from an empty table yields; otherwise it fails and the table is left empty |

## Left out

- File system access. `fs.readdirSync` is replaced by a listing given as
  input, where `None` means unreadable. `console.error` is not modelled.
- Module loading. `require` is replaced by a total function `load` from a
  path to the file's (locale, responses) pairs in property order. A file
  that fails to load (a throwing `require`) is not modelled.
- The `require.cache` invalidation in `reload`. It is Node runtime
  machinery.
- The `async`/`Promise` wrapping of `reload`. `Reload` is synchronous and
  returns a `Result`. Concurrent `get` calls during a reload are not
  modelled.
- Kakyo.Kakyo.constructor: takes a readable listing. Construction over an
  unreadable folder throws in the source; the model covers that path only
  through `Initialize` and `Reload`.
- JavaScript values in general. Data values are strings or integers only,
  with an explicit truthiness rule. Values are unbounded integers, not
  doubles, so `String(n)` for |n| ≥ 10^21 (exponent notation) is not
  modelled. Templates are strings.
- Prototype-inherited properties such as `toString` or `__proto__`. They
  could make `data[name]` or `_localizations[locale]` truthy without an own
  property.
- The regular-expression engine. Only the single pattern `#{(.*?)}#` is
  modelled, by a hand-written scanner.
- Util.RenderCongratsExample, Util.RenderCongratsWithoutData,
  Util.RenderDoesNotRescan: each literal template and output is written as
  the concatenation of its pieces (`"Congrats " + ("#{username}#" + …))`).
  The strings are the same.
- `setDefaultLocale` / `getDefaultLocale`. They do not exist in
  lib/Kakyo.js.
