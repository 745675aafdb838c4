# i18n middleware for buffalo — a Dafny model of the Translator

This project models the decision logic of the `Translator` of the i18n
middleware for the buffalo web framework (`i18n/i18n.go`). The Translator wraps
a go-i18n message bundle. It loads message files from a file tree, reloads them
in development mode when a file changes, and negotiates each request's
preferred languages. The negotiation runs a chain of extractors (cookie,
session, Accept-Language header, URL prefix) and appends the default language.
The resulting preference list and a localizer are cached in the request
context. `translate` decides which argument is the plural count and which is
the template data.

The model is split by concern:

- `gostd.dfy` (module `GoStd`): the parts of Go's standard library the code
  relies on: `strings.Split`, `strings.Trim(s, " ")`, `filepath.Dir`,
  `filepath.Base` and the byte-wise string order.
- `gosort.dfy` (module `GoSort`): `sort.Strings`. It is an in-place sort of an
  array, proved sorted and a permutation.
- `host.dfy` (module `Host`): what the code sees of the buffalo request: its
  cookies, session, Accept-Language header, route parameters and URL path, plus
  the lines written to its logger.
- `negotiation.dfy` (module `Negotiation`): `parseAcceptLanguage`, the four
  extractors and the ordered chain of extractors.
- `catalog.dfy` (module `Catalog`): the file tree, the bundle reduced to its
  registrations and language tags, the walk `Load` performs and the
  modification-time scan of `needsReload`.
- `translator.dfy` (module `I18n`): the `Translator` class (configuration,
  live bundle, `loadingTime`), the request `Context` class (value store and
  log), and `New`, `Load`, `AddTranslation`, `needsReload`, `extractLanguage`,
  `Middleware`, `Refresh`, `Translate`, `TranslateWithLang`,
  `AvailableLanguages` and the argument classification of `translate`.

The Translator, whose `Load` updates `loadingTime` and the bundle in place, is
a class. The request context is also a class: `Middleware` and `Refresh` set
its "languages" and "T" slots. The loops of `parseAcceptLanguage`,
`extractLanguage`, `needsReload`, `Load` and `AvailableLanguages` are methods
with loops. Each is proved against a specification function
(`AcceptLanguageTags`, `PreferenceList`, `ReloadCheck`, `LoadWalk`,
`LanguageTags`). The properties that matter are proved as lemmas about those
functions.

## Where the code and its documentation differ

The model follows the code in each case below.

- The doc comment of `Middleware` says that in development the translation
  files are reloaded on each request. The code reloads only when
  `needsReload` says so: when the load time is still the zero time, or when
  the walk finds a file modified strictly after it (`Catalog.ReloadRules`).
  Outside "development" it never reloads.
- The same doc comment lists `Default - "en-US"` as the last source of
  languages. The default is whatever language was given to `New`
  (`Negotiation.PreferenceListShape` ends the list with it).
- The doc comment of `Translate` says a count may be a float written as a
  string, such as "123.45". `translate` only takes the integer and float types
  as a count. A string falls into the default case and becomes the template
  data (`I18n.StringCountIsTemplateData`). Unsigned integers do too.

## Behaviour a reader might not expect

- `Load` parses every file straight into the live bundle. When a file fails,
  the files before it stay registered and the error is returned; nothing is
  built off to the side and swapped in (`Catalog.LoadWalkSpec`).
- `Refresh` puts the new language first and then runs the extractors again.
  It does not reuse the list cached earlier.
- `AvailableLanguages` lists the bundle's tags. go-i18n creates the bundle
  with the default language's tag, so that tag is always listed, even with no
  file for it.
- The session extractor contributes the stored value even when it is the
  empty string. The cookie extractor skips an empty cookie.
- Quality values in Accept-Language are cut off and never used to reorder.

## Model

| member | source | states |
|---|---|---|
| `Negotiation.ParseAcceptLanguage` | i18n/i18n.go:334-346 | The loop builds exactly the list of language ranges of the header's comma-separated pieces, in header order. |
| `Negotiation.AcceptLanguageTagsSpec` | i18n/i18n.go:337-344 | The result has one entry per comma (plus one), and entry i is piece i trimmed of spaces and cut at its first ';'. |
| `Negotiation.AcceptLanguageTagsClean` | i18n/i18n.go:337-343 | No entry of the result contains ',' or ';'. |
| `Negotiation.LanguageRangeSpec` | i18n/i18n.go:339-342 | One piece's range is a prefix of the trimmed piece, stopping at its first ';' or running to the end. It starts with no space and contains no ';'. |
| `Negotiation.RangesAt` | i18n/i18n.go:338-344 | The ranges of a list of pieces keep their order: entry k is the range of piece k. |
| `Negotiation.AcceptLanguageExample` | i18n/i18n.go:334-346 | "fr-FR,en;q=0.8, de" gives ["fr-FR", "en", "de"]. |
| `GoStd.TrimSpacesDropsSpaces` | i18n/i18n.go:339 | `strings.Trim(s, " ")` removes nothing but spaces at either end. |
| `GoStd.SplitFirstPiece` | i18n/i18n.go:340-341 | The first piece of `strings.Split` is the part before the first separator: a prefix without it, followed by the separator unless it is the whole string. |
| `GoStd.TrimSpacesSpec` | i18n/i18n.go:339 | `strings.Trim(s, " ")` leaves an infix of `s` that neither starts nor ends with a space. |
| `GoStd.SplitPiecesExcludeSeparator` | i18n/i18n.go:337 | No piece of `strings.Split` contains the separator. |
| `GoStd.JoinSplit` | i18n/i18n.go:337 | Joining the pieces of a split with the separator gives back the header. |
| `Negotiation.CookieLanguages` | i18n/i18n.go:276-289 | Returns at most one language. Returns one exactly when the option names a cookie that is present and not empty, and then it is that cookie's value. An empty option name logs an error. |
| `Negotiation.SessionLanguages` | i18n/i18n.go:292-303 | Returns at most one language. Returns one exactly when the option names a session key that is present, and then it is the stored value. An empty option name logs an error. |
| `Negotiation.HeaderLanguages` | i18n/i18n.go:307-315 | Nothing for an empty Accept-Language header; otherwise exactly the parsed header, which is never empty. |
| `Negotiation.URLPrefixLanguages` | i18n/i18n.go:318-330 | Returns at most one language. Returns one exactly when the named parameter is non-empty and "/" followed by it is a prefix of the URL path, and then it is the parameter. An empty option name logs an error. |
| `Negotiation.ChainConcatenates` | i18n/i18n.go:267-269 | The chain's output is the extractors' outputs concatenated in chain order. Output j of extractor i sits right after everything the extractors before i contributed. |
| `Negotiation.ChainLength` | i18n/i18n.go:267-269 | The chain's output is as long as the extractors' outputs together. |
| `Negotiation.ChainPrefix` | i18n/i18n.go:267-269 | Running the first m extractors gives a prefix of the whole chain's output. |
| `Negotiation.PreferenceListShape` | i18n/i18n.go:265-273 | The preference list is never empty and ends with the default language. Its length is the extractors' total output plus one, and it starts with the chain's output. |
| `Negotiation.DefaultChainOrder` | i18n/i18n.go:103-107 | With the default chain, the cookie's language comes first, then the session's, then the header's. |
| `I18n.Translator.ExtractLanguage` | i18n/i18n.go:265-273 | The loop returns the preference list of the configured chain and default language. The extractors' log lines go to the context. |
| `I18n.Classify` | i18n/i18n.go:155-168 | With no args, count and data are both nil. A first arg of an int/int8..int64/float32/float64 type is the count, and the data is the second arg if present. Any other first arg is the data, and the count is nil. |
| `I18n.ClassifyIgnoresExtraArgs` | i18n/i18n.go:158-168 | Arguments past the second make no difference. |
| `I18n.StringCountIsTemplateData` | i18n/i18n.go:159-167 | A string first argument such as "123.45" becomes the template data and is never the plural count. |
| `I18n.UnsignedCountIsTemplateData` | i18n/i18n.go:160 | Unsigned integer types are not in the count case: they become the template data. |
| `I18n.Translator.Translate` | i18n/i18n.go:228-230 | Localizes with the localizer cached under "T", with the classified arguments. |
| `I18n.Translator.TranslateWithLang` | i18n/i18n.go:234-236 | Localizes with a localizer over the one given language, with the classified arguments. |
| `Catalog.ScanWalkSpec` | i18n/i18n.go:185-206 | The scan reports a change exactly when some file visited before the first walk error has a modification time strictly after the load time. A walk error stops the walk but keeps the result found so far. |
| `Catalog.ReloadRules` | i18n/i18n.go:177-207 | Never reload outside "development". Always reload when the load time is the zero time. Otherwise reload exactly when the scan finds a file newer than the load time. |
| `Catalog.SameInstantIsNoChange` | i18n/i18n.go:197 | A file modified at the load instant itself does not trigger a reload (the comparison is strict). |
| `I18n.Translator.NeedsReload` | i18n/i18n.go:177-207 | The walk's result flag and the lines it logs are those of the reload rules. It logs each changed file by name, and a walk error after the walk. |
| `Catalog.FirstLoadFailure` | i18n/i18n.go:46-69 | Load accepts every entry before the first failing one (a walk error, or a file that cannot be read or parsed). |
| `Catalog.LoadErrorOf` | i18n/i18n.go:47-67 | A walk error comes first and gives a walk failure. Otherwise a file that cannot be read gives a read failure and one that cannot be parsed gives a parse failure. A walk or read failure names the entry by its path, a parse failure by its base name. |
| `Catalog.LoadWalkSpec` | i18n/i18n.go:45-72 | Load registers each file before the first failure, in walk order, under its registry key, and skips directories. It fails exactly when some entry fails, with the error of the first one. What was registered before the failure stays. |
| `Catalog.FileRegistrationsSkipDirectory` | i18n/i18n.go:51-53 | Load skips directories: an accepted directory anywhere in the walk leaves the registrations exactly as they are without it. |
| `Catalog.FileRegistrationsAppend` | i18n/i18n.go:46-71 | The registrations of two accepted runs walked one after the other are those of the first followed by those of the second. |
| `Catalog.RegistryKeyTopLevel` | i18n/i18n.go:60-64 | A top-level file is registered under ".buff" followed by its name. |
| `Catalog.RegistryKeyNested` | i18n/i18n.go:60-64 | A nested file is registered under its path with the last '/' replaced by "buff". |
| `I18n.Translator.Load` | i18n/i18n.go:45-75 | The loop leaves the bundle and returns the error the walk specification gives. The load time becomes `now` only when the whole walk succeeds and is unchanged on error. |
| `I18n.Translator.AddTranslation` | i18n/i18n.go:79-81 | Registers the messages under the tag in the live bundle, or returns the bundle's refusal and leaves it unchanged. |
| `Catalog.RegisterTags` | i18n/i18n.go:79-81 | A registration adds its tag to the bundle's tags and removes none. |
| `I18n.New` | i18n/i18n.go:86-111 | A default language that does not parse gives no Translator, only an error. Otherwise New installs helper "t", cookie/session/URL-prefix option "lang" and the cookie, session, header chain, then loads once. It returns the Translator together with the load's error, if any. |
| `I18n.Translator.constructor` | i18n/i18n.go:91-109 | A fresh bundle for the default tag, the default configuration, and the zero load time. |
| `I18n.Translator.Middleware` | i18n/i18n.go:123-153 | Reloads when needed. A failed reload returns its error before the next handler, with the context store untouched. Otherwise "languages" and "T" are set only when absent, the view helper is set, and the extractors run only when "languages" was absent. |
| `I18n.CachedStoreSlots` | i18n/i18n.go:134-149 | A slot already set keeps its value. An absent "languages" gets the fresh list, and an absent "T" gets a localizer over the "languages" slot. No other key changes except the helper. |
| `I18n.CachedStoreIdempotent` | i18n/i18n.go:134-144 | A second pass over the same context changes nothing, whatever a new extraction would give. |
| `I18n.HelperNameOverwritesLanguages` | i18n/i18n.go:147 | The helper is set last, so a helper named "languages" overwrites the cached list. |
| `I18n.Translator.Refresh` | i18n/i18n.go:252-263 | "languages" becomes the new language followed by a fresh extraction, and "T" a localizer over that list. |
| `I18n.Translator.AvailableLanguages` | i18n/i18n.go:239-247 | The bundle's tags, sorted, each once, as many as the bundle has. A language is listed exactly when it is the bundle's own tag or has a registration. |
| `Catalog.LanguageTagsSpec` | i18n/i18n.go:240 | The bundle's tags hold no duplicates. A tag is among them exactly when it is the bundle's tag or some registration was made under it. |
| `Catalog.Distinct` | i18n/i18n.go:240 | Keeping first occurrences leaves no duplicates and the same elements. |
| `GoSort.SortStrings` | i18n/i18n.go:245 | Sorts the array in place in byte-wise order, as a permutation of its contents. |

## Left out

- go-i18n's `Localizer.Localize`, CLDR plural rules and template expansion are
  foreign code. `Translate` and `TranslateWithLang` stop at the localizer and
  the `LocalizeConfig` they would pass to it.
- `Bundle.ParseMessageFileBytes`, `yaml.Unmarshal` and message contents are
  foreign. Each file entry says what reading and parsing give: unreadable,
  unparsable, or messages under a tag. A parse that fails registers nothing.
- `AddMessages` refuses a tag it has no plural rule for. Whether it has one is
  a parameter of `AddTranslation`.
- `language.Parse` and `Tag.String()` are foreign. `New` receives the outcome
  of parsing the default language: no tag, or its canonical string.
- `fs.WalkDir`, `fs.ReadFile` and `d.Info()` are file-system I/O. The tree is a
  sequence of entries in walk order, and each entry carries its walk error,
  modification time and read/parse outcome. `Translator.FS` is not a field: the
  tree is a parameter of `New`, `Load`, `NeedsReload` and `Middleware`.
  `Middleware` gives `needsReload` and `Load` the same tree, so a file that
  changes between the two walks is not modelled.
- `time.Now()` is the `now` parameter of `Load`, `Middleware` and `New`.
  Times are integers, and the zero `time.Time` is 0. A clock reading is never
  the zero time, so those members require `now != ZeroTime`.
- Logger output is reduced to a line per event (info or error) and the path or
  option name it is about. The message text is left out.
- The buffalo handler chain: `Middleware` returns `Next` instead of calling the
  next handler. The view helper closure is the value `TranslateHelper`.
- Go's panics on a type assertion are preconditions:
  - a missing `CookieName`/`SessionName`/`URLPrefixName` option for an
    extractor that is in the chain;
  - an "env" value that is not a string;
  - a "languages" value that is not a list where the code reads it;
  - a "T" value that is missing or not a localizer when `Translate` reads it.
- The model treats only an absent key as a nil context value; a key stored
  with a nil value is not modelled.
- Custom extractors are pure functions of the options and the request. They
  cannot log or touch the context.
- Session values are strings: a session value of another type, on which the
  session extractor's type assertion would panic, is not modelled.
- The HTTP layer: the cookie jar, the header's case-insensitive lookup and the
  router's parameters are given as maps and strings.
- Concurrency: the code has no locking and the model is sequential.
