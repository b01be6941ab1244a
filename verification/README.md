# Menu translator — a Dafny model of its decision logic

The application photographs a restaurant menu. A generative model reads the
photo: it detects the menu's language and extracts or describes the dishes.
Each dish gets a photo from an image search. The diner picks quantities and
allergies. The order is then turned into a Japanese phrase and translated
into the local language, with a pronunciation.

This project models the parts of that system that make decisions:

- the route handlers (`app/api/*/route.ts`): input validation and its status
  codes, the fallback values ("Unknown", default languages), the language
  tables, how JSON is pulled out of model replies, and when an error becomes
  a 500 rather than an empty success;
- the client-side helpers and components that hold order state: the
  menu-fetching hook, the image-search helper, the two translation
  components, the allergy selector, the quantity counters of the dish card
  and the cart, and the two order pages.

Every external call is a function parameter. This covers the generative
model, DeepL, the image search service, `fetch` between the client and the
routes, `JSON.parse`, `JSON.stringify` and the undefined
`addImagesToMenuItems`. The model therefore states what a handler or a
component does with any answer those calls might give.

Modules and files:

- Shared modules:
  - `Wrappers` (`Option`, `Outcome` = returned value or thrown message);
  - `Text` (`trim`, `toLowerCase`, `indexOf`, `lastIndexOf`, `join`,
    `split`, substring search);
  - `Numerals` (decimal rendering of numbers and reading it back);
  - `JsValues` (a JSON value with JavaScript truthiness, `||`, `??`,
    property reads that throw on `null`, `?.`, `String()` and object
    spread);
  - `Fences` (the two fixed ```` ```json ```` regular expressions, stated as
    substring searches);
  - `Http` (handler replies, requests, responses);
  - `BrowserStorage` (storage as a map, and the stored-setting-or-default
    read both pages use).
- One module per source file:
  - routes: `GeminiOcrRoute`, `GeminiRoute`, `TranslateRoute`,
    `DetectLanguageRoute`, `GeminiDescribeRoute`, `DeepLRoute`,
    `ImageSearchRoute`;
  - client helpers: `ImageSearchClient`, `UseFetchMenuData`;
  - components: `TranslationView`, `TranslationDeepLView`,
    `AllergySelector`, `MenuItemView`, `OrderList`;
  - pages: `OrderPage`, `NextPage`;
  - data: `MenuTypes` (the dish record) and `Selectors` (the option values
    of the two language selectors, used as inputs to the language tables).

Several parts of the code do not fit together. The model keeps each side as
written and proves the consequence instead of reconciling them:

- the menu hook reads `response` where the route answers `menuData`
  (`UseFetchMenuData.NothingLoadsFromMenuRoute`);
- `Translation.tsx` sends `detectedLanguage` where the translation route
  reads `selectedCountry`
  (`TranslationView.AlwaysTranslatesToJapanese`,
  `OrderPage.OrderTranslatedIntoJapanese`);
- the country selector offers "China", which the route's table lacks
  (`TranslateRoute.SelectorCountries`);
- the user-language selector offers Japanese names, while the analysis route
  looks up English ones (`GeminiRoute.SelectorLanguagesFallBack`).

Two behaviours of the routes are worth stating on their own:

- When nothing can be extracted from the model's reply, the OCR route
  answers 200 with an empty `menuList` (`GeminiOcrRoute.MenuListOutcomes`).
- The detect-language route answers 500 when the fence is missing or its
  content does not parse; only a missing or falsy field becomes "Unknown"
  (`DetectLanguageRoute.Answer`, `DetectLanguageRoute.FenceRequired`). The
  menu-analysis route, by contrast, falls back to "Unknown" on a parse
  failure (`GeminiRoute.DetectedValue`).

## Model

| member | source | states |
|---|---|---|
| Fences.LooseFence | app/api/gemini-ocr/route.ts:12 | the loose fence's group is a substring of the reply with no whitespace at either end |
| Fences.LooseFenceRoundTrip | app/api/gemini-ocr/route.ts:12 | a backtick-free body wrapped in a loose fence after backtick-free prose comes back trimmed, whatever follows |
| Fences.StrictFenceRoundTrip | app/api/translate/route.ts:63 | a backtick-free body wrapped in a strict fence after backtick-free prose comes back exactly, whatever follows |
| Fences.NoTickNoFence | app/api/translate/route.ts:63-66 | text without a backtick matches neither fence pattern |
| Text.Trim | app/api/gemini/route.ts:90 | `trim` yields a substring that neither starts nor ends with whitespace |
| Text.TrimIdempotent | app/api/gemini/route.ts:90 | trimming twice equals trimming once |
| Text.TrimIgnoresPadding | components/Translation.tsx:81 | whitespace added around a string does not change its trim |
| Text.TrimToLowerCommute | components/Translation.tsx:81 | trimming and lower-casing commute |
| Text.IndexOf | app/api/gemini-ocr/route.ts:15 | the index found holds the character and no earlier index does; none means the character is absent |
| Text.LastIndexOf | app/api/gemini-ocr/route.ts:16 | the index found holds the character and no later index does; none means the character is absent |
| Text.SplitJoin | app/api/translate/route.ts:41 | joining parts that lack the separator and splitting at it gives the parts back |
| Numerals.NatToString | app/api/translate/route.ts:41 | the rendered index is a canonical decimal numeral, one digit exactly below 10 |
| Numerals.ValueOfNatToString | app/api/translate/route.ts:41 | reading a rendered number gives the number back |
| Numerals.NatToStringInjective | hooks/useFetchMenuData.ts:31 | distinct numbers render differently |
| Numerals.IntToStringInjective | app/order/page.tsx:28 | distinct integer quantities render differently, sign included |
| Numerals.ArrayIndexOfNatToString | components/Translation.tsx:63 | the property key "i" of an array denotes index i |
| JsValues.Or | app/api/translate/route.ts:33 | `a \|\| b` is `a` exactly when `a` is truthy |
| JsValues.Coalesce | app/api/gemini-ocr/route.ts:58 | `a ?? b` is `a` exactly when `a` is neither null nor undefined |
| JsValues.Member | app/api/imageSearch/route.ts:41 | a property read throws exactly on null and undefined |
| JsValues.OptionalMember | components/Translation.tsx:63 | `v?.[k]` is undefined on a nullish `v` and the plain read otherwise |
| JsValues.IndexPropertiesAt | hooks/useFetchMenuData.ts:30 | spreading an array copies element i under the key "i" |
| Http.InlineParts | app/api/gemini/route.ts:36-44 | one inline part per upload, in order, with the upload's own type |
| Http.Delivered | app/api/translate/route.ts:70-73 | a handler's JSON reply reaches the client with its status and body; a rejected handler reaches it as a 500 whose body does not read as JSON |
| GeminiOcrRoute.BracketSpan | app/api/gemini-ocr/route.ts:15-17 | the span from the first "[" to the last "]" exists exactly when both exist in that order, and starts with "[" and ends with "]" |
| GeminiOcrRoute.ExtractJson | app/api/gemini-ocr/route.ts:11-20 | the three strategies in order (non-empty loose fence, trimmed text starting with "[", bracket span), when each applies; an empty fence survives only when nothing else matches; `null` exactly when nothing matches |
| GeminiOcrRoute.ExtractBareArray | app/api/gemini-ocr/route.ts:13 | a bare JSON array is extracted whole |
| GeminiOcrRoute.ExtractFencedArray | app/api/gemini-ocr/route.ts:12 | the same array inside a json fence is extracted by the first strategy |
| GeminiOcrRoute.ExtractEmbeddedArray | app/api/gemini-ocr/route.ts:14-18 | the same array between bracket-free prose is extracted by the bracket span |
| GeminiOcrRoute.ToParts | app/api/gemini-ocr/route.ts:33-38 | one part per upload, typed "image/jpeg" when the upload has no type |
| GeminiOcrRoute.DetectedLanguage | app/api/gemini-ocr/route.ts:54-61 | never null or undefined; anything other than "Unknown" is the non-nullish `detectedLanguage` of the parsed extracted text, and such a field is always the answer |
| GeminiOcrRoute.DetectedLanguageOfFence | app/api/gemini-ocr/route.ts:54-61 | a fenced object reports its `detectedLanguage` field, and "Unknown" when the field is null or undefined |
| GeminiOcrRoute.Post | app/api/gemini-ocr/route.ts:22-96 | a failing form read rejects; no image gives 400; with images, a throw of either model call rejects; a 200 carries the detected language, the requested language (default "日本語") and a menu list |
| GeminiOcrRoute.MenuListOutcomes | app/api/gemini-ocr/route.ts:81-95 | nothing extractable gives 200 with an empty list; unparsable extracted text gives 500 with the raw reply; parsed text is returned as the list |
| GeminiRoute.UserLanguage | app/api/gemini/route.ts:78-91 | the table value for a key, and "日本語" exactly for non-keys and "Japanese" |
| GeminiRoute.SelectorLanguagesFallBack | components/TranslatedLanguageSelector.tsx:13-21 | every option value of the user-language selector misses the table and falls back to "日本語" |
| GeminiRoute.TranslatedLanguage | app/api/gemini/route.ts:20-23 | "Japan" exactly when the form field is absent, empty or "Japan"; otherwise the field |
| GeminiRoute.DefaultLanguageFallsBack | app/api/gemini/route.ts:22-91 | the default "Japan" is not a table key, so an absent language gives "日本語" |
| GeminiRoute.Candidate | app/api/gemini/route.ts:67-68 | the strict fence's content when the reply has one, else the whole reply |
| GeminiRoute.CandidateOfFencedReply | app/api/gemini/route.ts:67-68 | a fenced body is parsed by itself, whatever surrounds the fence |
| GeminiRoute.CandidateOfPlainReply | app/api/gemini/route.ts:67-68 | a reply without backticks is parsed whole |
| GeminiRoute.DetectedValue | app/api/gemini/route.ts:63-73 | always truthy; "Unknown" on a parse throw or a falsy field, else the field |
| GeminiRoute.MenuBody | app/api/gemini/route.ts:143-147 | a success body has exactly the keys detectedLanguage, userLanguage and menuData |
| GeminiRoute.Analyse | app/api/gemini/route.ts:32-155 | no image gives 400 before any model call; with images, a throw of either model call gives 500 with its message, a non-string detected value gives 500 (its trim throws), and otherwise 200 with the trimmed detected language, the mapped user language and the raw, unparsed menu text |
| GeminiRoute.AnalyseReportsFencedLanguage | app/api/gemini/route.ts:56-155 | a detection reply fencing `{"detectedLanguage": language}` yields 200 reporting that language, trimmed, beside the menu text |
| GeminiRoute.Post | app/api/gemini/route.ts:11-157 | a JSON request is read and then refused with 400, or 500 if reading fails; other non-multipart types get 400; only multipart reaches the analysis; every ok status is 200 with the three keys |
| GeminiRoute.DetectedLanguageTrimmed | app/api/gemini/route.ts:90 | the reported language is its own trim, and "Unknown" when parsing throws |
| TranslateRoute.TargetLanguage | app/api/translate/route.ts:22-33 | the table value for the country's string form, and "日本語" exactly for non-keys and "Japan" |
| TranslateRoute.SelectorCountries | components/CountrySelector.tsx:13-21 | every country of the selector is a key except "China", which falls back to "日本語" |
| TranslateRoute.NumberedLines | app/api/translate/route.ts:41 | line i is "i+1. " followed by phrase i, in input order |
| TranslateRoute.PhraseListLines | app/api/translate/route.ts:41 | with single-line phrases, the prompt list splits back into exactly one numbered line per phrase |
| TranslateRoute.PhraseList | app/api/translate/route.ts:41 | empty exactly when there are no phrases; otherwise it starts with "1. " and the first phrase and ends with the last phrase under its own number |
| TranslateRoute.PhraseListSingle | app/api/translate/route.ts:41 | a single phrase becomes the list "1. phrase" |
| TranslateRoute.Answer | app/api/translate/route.ts:57-73 | 200 exactly when the reply has a strict fence whose content parses, and then the parsed value unchanged as translatedPhrases; otherwise 500 |
| TranslateRoute.FencedAnswer | app/api/translate/route.ts:63-71 | a fenced parsable body succeeds whatever surrounds it; a reply without a fence is a 500, never an empty success |
| TranslateRoute.Post | app/api/translate/route.ts:12-81 | a throwing or null body gives 500; a missing, non-array or empty phrase list gives 400; otherwise the model is asked with the mapped language and the numbered list |
| DetectLanguageRoute.Detected | app/api/detectLanguage/route.ts:65 | always truthy; the field when it is truthy, else "Unknown" |
| DetectLanguageRoute.Answer | app/api/detectLanguage/route.ts:53-67 | no strict fence gives 500 "JSON extraction failed"; a parse throw gives 500 with its message; otherwise 200 with the detected language |
| DetectLanguageRoute.FenceRequired | app/api/detectLanguage/route.ts:56-60 | bare JSON is refused with 500, the same JSON in a fence is accepted |
| DetectLanguageRoute.Post | app/api/detectLanguage/route.ts:9-75 | non-multipart gives 400; a failing form read gives 500; no image gives 400; otherwise the model reply decides |
| GeminiDescribeRoute.DishLines | app/api/gemini-describe/route.ts:19-21 | one "i+1. name - price" line per dish, in order; none when a dish is null (the read throws) |
| GeminiDescribeRoute.DishListLines | app/api/gemini-describe/route.ts:19-21 | with single-line names and prices, the joined list splits back into the dish lines |
| GeminiDescribeRoute.DishLine | app/api/gemini-describe/route.ts:20 | a dish line starts with its 1-based position, and its first "." comes right after that number |
| GeminiDescribeRoute.DishLineNumbersDistinct | app/api/gemini-describe/route.ts:20 | lines at different positions differ, whatever the dishes |
| GeminiDescribeRoute.Language | app/api/gemini-describe/route.ts:13 | "日本語" exactly when the field is nullish, else the field's string form |
| GeminiDescribeRoute.JsonText | app/api/gemini-describe/route.ts:38 | the fence content when it is non-empty, else the whole reply |
| GeminiDescribeRoute.PlainReplyParsedWhole | app/api/gemini-describe/route.ts:38 | a reply without backticks is parsed whole |
| GeminiDescribeRoute.FencedReplyParsedInside | app/api/gemini-describe/route.ts:38 | a non-empty fenced body is parsed by itself |
| GeminiDescribeRoute.Answer | app/api/gemini-describe/route.ts:40-48 | 200 with detailedMenus exactly when the text parses; else 500 carrying the raw reply |
| GeminiDescribeRoute.Post | app/api/gemini-describe/route.ts:10-49 | the handler rejects exactly on a failing or null body, a truthy length on a non-array, a nullish dish or a model throw; 400 exactly when the dish list has a falsy length; for a non-empty array of dishes the model is asked with the language and the numbered dish lines and its reply decides |
| GeminiDescribeRoute.PostAnswersPlainReply | app/api/gemini-describe/route.ts:19-48 | a backtick-free model reply that parses is returned whole as `detailedMenus` with 200 |
| DeepLRoute.TargetLang | app/api/DeepL/route.ts:10-25 | the table code for the country, and "ES" exactly for non-keys and "Spain" |
| DeepLRoute.FirstText | app/api/DeepL/route.ts:50 | always truthy; the first translation's text whenever that text is truthy, and "翻訳エラー" only otherwise |
| DeepLRoute.TranslateOne | app/api/DeepL/route.ts:29-56 | the error entry exactly when the call throws, is not ok, or its body does not read or is null; otherwise the first text with the fixed pronunciation note |
| DeepLRoute.TranslateAll | app/api/DeepL/route.ts:27-58 | one entry per phrase, same length and order |
| DeepLRoute.TranslateAllAppend | app/api/DeepL/route.ts:27-58 | translating a concatenation translates the parts separately |
| DeepLRoute.FailureIsolated | app/api/DeepL/route.ts:42-56 | a service that differs for one phrase changes no other phrase's entry |
| DeepLRoute.Post | app/api/DeepL/route.ts:18-68 | 400 exactly for a missing, non-array or empty phrase list; a throwing or null body gives 500; every non-empty phrase array gives 200 holding each phrase's entry for the mapped target |
| ImageSearchRoute.Found | app/api/imageSearch/route.ts:30-43 | 404 carrying the query exactly when there are no items; otherwise a null first item gives 500 and any other first item gives 200 with its link and the query |
| ImageSearchRoute.Post | app/api/imageSearch/route.ts:7-51 | 400 exactly for a falsy query; a failing or null body gives 500; a missing key or engine id gives 500 before any search; with a truthy query and both settings, a throwing or null search gives 500 and any other search result is answered as `Found` answers it for the query |
| ImageSearchClient.SearchQuery | utils/imageSearch.ts:6 | the query is the dish's original name followed by " food image" |
| ImageSearchClient.SearchImage | utils/imageSearch.ts:3-28 | a URL exactly when the response is ok and its imageUrl is truthy; null on every failure and throw |
| ImageSearchClient.SearchThroughRoute | utils/imageSearch.ts:8-19 | through the route, a URL comes back exactly when the service has items and the first link is truthy |
| UseFetchMenuData.DishIdInjective | hooks/useFetchMenuData.ts:31 | distinct indices give distinct dish ids |
| UseFetchMenuData.DishId | hooks/useFetchMenuData.ts:31 | "menu-" followed by digits that read back as the 1-based index |
| UseFetchMenuData.Numbered | hooks/useFetchMenuData.ts:29-33 | the dish keeps every spread field and gets id "menu-(i+1)" and quantity 0 |
| UseFetchMenuData.NumberAll | hooks/useFetchMenuData.ts:29-33 | one numbered dish per parsed dish, in order |
| UseFetchMenuData.NumberedIdsDistinct | hooks/useFetchMenuData.ts:29-33 | no two dishes of one fetch share an id |
| UseFetchMenuData.Begin | hooks/useFetchMenuData.ts:9-10 | a fetch starts with no dishes and loading set |
| UseFetchMenuData.ListText | hooks/useFetchMenuData.ts:25 | reading the list text throws exactly when the body is null or `response` is not a string; otherwise the strict fence's content |
| UseFetchMenuData.Load | hooks/useFetchMenuData.ts:22-50 | loading ends; an unreadable `response`, a parse throw or a non-array list leaves no dishes and clears the status; no fenced list leaves no dishes with the status set; a parsed array is numbered, then shown enriched with the status set, or unenriched with the status cleared when enrichment throws |
| UseFetchMenuData.FetchMenuData | hooks/useFetchMenuData.ts:8-52 | loading always ends; a failed fetch, an unreadable body or a non-ok status leaves no dishes and the status cleared; an ok, readable reply ends exactly as `Load` of its body |
| UseFetchMenuData.LoadsFencedList | hooks/useFetchMenuData.ts:22-39 | an ok reply whose `response` fences a JSON array loads those dishes numbered and enriched, with the success flag set |
| UseFetchMenuData.NoResponseField | hooks/useFetchMenuData.ts:25-42 | an ok reply without a `response` field loads nothing and clears the status |
| UseFetchMenuData.NothingLoadsFromMenuRoute | hooks/useFetchMenuData.ts:25 | against the menu-analysis route, which answers `menuData`, the hook never loads a dish |
| TranslationView.StripGo | components/Translation.tsx:82 | one trailing "語" is removed, and nothing else changes |
| TranslationView.Normalize | components/Translation.tsx:81 | the normalised name is its own trim and its own lower case, so normalising twice changes nothing |
| TranslationView.SpeechTag | components/Translation.tsx:80-82 | the tag for the normalised name, else for the name without "語", else "ja-JP"; always one of the nine tags |
| TranslationView.EveryKeyReachable | components/Translation.tsx:11-47 | every name of the table, under its code, English name or Japanese name, reaches its own tag |
| TranslationView.TableTags | components/Translation.tsx:11-47 | the table's tags are exactly the nine speech tags |
| TranslationView.NormalizeClean | components/Translation.tsx:81 | a non-empty name with no surrounding whitespace and no ASCII upper-case letter is already normal |
| TranslationView.NormalizeIgnoresCase | components/Translation.tsx:81 | names that differ only in letter case normalise alike |
| TranslationView.NormalizeIgnoresPadding | components/Translation.tsx:81 | names that differ only in surrounding whitespace normalise alike |
| TranslationView.SpeechTagIgnoresCase | components/Translation.tsx:81 | letter case of the detected language does not change the tag |
| TranslationView.SpeechTagIgnoresPadding | components/Translation.tsx:81 | whitespace around the detected language does not change the tag |
| TranslationView.RequestBody | components/Translation.tsx:60 | the body holds the single phrase and the detected language |
| TranslationView.AlwaysTranslatesToJapanese | components/Translation.tsx:57-61 | the route sees no country, so it always translates "1. phrase" into "日本語" |
| TranslationView.Receive | components/Translation.tsx:54-69 | loading ends; a throw of the call or of `res.json()`, and a null body, leave the shown translation as it was; a readable body shows `translatedPhrases?.[0]`, or null when that is nullish |
| TranslationView.ErrorReplyShowsNothing | components/Translation.tsx:62-63 | a route error body replaces whatever translation was shown by null |
| TranslationDeepLView.SpeechTag | components/Translation_DeepL.tsx:56 | the table tag for the country, else "es-ES" |
| TranslationDeepLView.SpeechFollowsTarget | components/Translation_DeepL.tsx:9-15 | for every country, the speech tag's language is the route's target code in lower case |
| TranslationDeepLView.CacheKey | components/Translation_DeepL.tsx:22 | the key starts with "translation_" and has the length of its parts plus separator |
| TranslationDeepLView.LastUnderscore | components/Translation_DeepL.tsx:22 | for an underscore-free country, the key's last "_" separates phrase and country |
| TranslationDeepLView.CacheKeyInjective | components/Translation_DeepL.tsx:22 | underscore-free countries never share a key with another phrase or country |
| TranslationDeepLView.CacheKeyCollides | components/Translation_DeepL.tsx:22 | an underscore in the phrase can make two requests share a key |
| TranslationDeepLView.RequestBody | components/Translation_DeepL.tsx:34 | the body holds the single phrase and the country |
| TranslationDeepLView.FirstPhrase | components/Translation_DeepL.tsx:37 | reading `translatedPhrases[0]` succeeds exactly when the body and the list are not nullish |
| TranslationDeepLView.Fetched | components/Translation_DeepL.tsx:31-37 | a translation exactly when the call, the body and the read all succeed |
| TranslationDeepLView.Mount | components/Translation_DeepL.tsx:21-48 | a non-empty cache entry is parsed and shown with no fetch (a parse throw escapes); otherwise a fetched translation is shown and stored under the same key, and every failure of the call, the body or the read keeps the translation shown before; loading ends |
| TranslationDeepLView.CachedIgnoresRoute | components/Translation_DeepL.tsx:23-27 | on a cache hit the route is not consulted |
| TranslationDeepLView.CacheRoundTrip | components/Translation_DeepL.tsx:22-39 | a translation fetched once is shown from the cache on the next mount when its JSON text parses back |
| TranslationDeepLView.EmptyReplyPoisonsCache | components/Translation_DeepL.tsx:37-39 | an empty translatedPhrases array stores "undefined", which makes the next mount throw |
| TranslationDeepLView.ThroughRoute | components/Translation_DeepL.tsx:31-38 | through the DeepL route, the shown translation is the route's entry for the phrase |
| AllergySelector.MandatoryDistinct | components/AllergySelector.tsx:23-32 | the eight mandatory ids are distinct |
| AllergySelector.RecommendedDistinct | components/AllergySelector.tsx:35-56 | the twenty recommended ids are distinct |
| AllergySelector.CatalogsDisjoint | components/AllergySelector.tsx:23-56 | no id is in both catalogs |
| AllergySelector.CatalogShape | components/AllergySelector.tsx:23-56 | 8 mandatory and 20 recommended allergens, 28 distinct ids in all |
| AllergySelector.Without | components/AllergySelector.tsx:65 | the id is gone and every other selected id stays |
| AllergySelector.WithoutAppend | components/AllergySelector.tsx:65 | the filter distributes over concatenation, so it keeps the order of the rest |
| AllergySelector.WithoutAbsent | components/AllergySelector.tsx:65 | removing an absent id changes nothing |
| AllergySelector.WithoutCounts | components/AllergySelector.tsx:65 | every occurrence of the id goes; every other id keeps its count |
| AllergySelector.Change | components/AllergySelector.tsx:61-67 | checking appends the id at the end, with no duplicate test and the earlier entries untouched; unchecking filters |
| AllergySelector.Click | components/AllergySelector.tsx:122-123 | a click flips the clicked checkbox and no other |
| AllergySelector.IsChecked | components/AllergySelector.tsx:122 | a checkbox is checked exactly when its id occurs at least once in the selection |
| AllergySelector.WithoutKeepsNoDuplicates | components/AllergySelector.tsx:65 | filtering a duplicate-free selection leaves it duplicate-free |
| AllergySelector.ClickKeepsNoDuplicates | components/AllergySelector.tsx:122-123 | clicks keep the selection duplicate-free |
| AllergySelector.ClickTwiceRestores | components/AllergySelector.tsx:61-67 | checking then unchecking an absent id restores the selection |
| AllergySelector.Clear | components/AllergySelector.tsx:69-71 | clearing gives the empty selection |
| AllergySelector.Save | components/AllergySelector.tsx:73-78 | saving closes the panel and hands over the selection unchanged, if the parent asked for it |
| AllergySelector.NameOf | components/AllergySelector.tsx:103 | a name exactly when some allergen has the id, and then one such allergen's name |
| AllergySelector.Badges | components/AllergySelector.tsx:102-109 | one badge per selected id, in order |
| AllergySelector.NameOfCatalogEntry | components/AllergySelector.tsx:103 | with distinct ids, an allergen's id finds its own name |
| AllergySelector.CatalogBadge | components/AllergySelector.tsx:102-107 | each catalog allergen's badge shows its own name |
| MenuItemView.Increment | components/MenuItem.tsx:10-12 | "+" reports the dish id with one more |
| MenuItemView.Decrement | components/MenuItem.tsx:14-18 | "-" reports nothing exactly at zero or below, else one less, never negative |
| MenuItemView.Press | components/MenuItem.tsx:10-18 | a press changes only the quantity, as reported |
| MenuItemView.RunStaysNonNegative | components/MenuItem.tsx:14-18 | from a non-negative quantity, no press sequence goes below zero or above the start plus the "+" count |
| MenuItemView.PressesCancel | components/MenuItem.tsx:10-18 | "+" then "-" restores the quantity; so does "-" then "+" above zero |
| MenuItemView.Badges | components/MenuItem.tsx:79-87 | one badge per allergen, highlighted exactly when its id is among the user's allergies |
| MenuItemView.ShowsAllergies | components/MenuItem.tsx:75 | the allergy section is shown exactly when the card has at least one allergen badge, whatever the user's allergies |
| MenuItemView.HighlightMonotone | components/MenuItem.tsx:83 | adding a user allergy lights exactly the badges with that id, and turns none off |
| MenuItemView.SpicyDisplay | components/MenuItem.tsx:63-69 | flames exactly when the level is positive, as many as the level; else the "0" label |
| OrderList.Render | components/OrderList.tsx:24-89 | nothing when closed; the empty message exactly for an empty cart; one row per dish; place-order enabled exactly for a non-empty cart |
| OrderList.Minus | components/OrderList.tsx:52 | "-" reports one less with no lower bound |
| OrderList.Plus | components/OrderList.tsx:59 | "+" reports the same change as the dish card's "+" |
| OrderList.MinusAgainstCard | components/OrderList.tsx:52 | above zero both counters report the same; at zero the cart reports a negative quantity where the card reports nothing |
| OrderList.PlaceOrder | components/OrderList.tsx:85-89 | nothing for an empty cart; otherwise the cart unchanged |
| OrderList.PlaceOrderFollowsButton | components/OrderList.tsx:86-89 | an order is placed exactly when the button is enabled |
| BrowserStorage.StoredOr | app/order/page.tsx:10-22 | the stored string when it is present and non-empty, otherwise the page's initial default |
| OrderPage.DetectedLanguage | app/order/page.tsx:10-23 | the stored language when non-empty, else "Japanese" |
| OrderPage.Segment | app/order/page.tsx:28 | a segment starts with the dish name, ends with "個", and has no "と" when the name has none |
| OrderPage.Segments | app/order/page.tsx:27-28 | one segment per dish, in order |
| OrderPage.OrderPhrase | app/order/page.tsx:27-29 | empty exactly for an empty order; otherwise it starts with the first dish's name and ends with "個" |
| OrderPage.OrderPhraseSplits | app/order/page.tsx:27-29 | when no dish name contains "と", the phrase splits at "と" into exactly one segment per dish |
| OrderPage.Page | app/order/page.tsx:37-46 | the no-order message exactly for an empty order; otherwise the phrase with "ください。" and the stored language |
| OrderPage.OrderTranslatedIntoJapanese | app/order/page.tsx:41-44 | the page's phrase reaches the route as the single line "1. …ください。" with Japanese as the target |
| NextPage.Country | app/nextpage/page.tsx:10-23 | the stored country when non-empty, else "France" |
| NextPage.Request | app/nextpage/page.tsx:26-34 | no request exactly for an empty order; otherwise the first dish's phrase and the country |
| NextPage.Phrase | app/nextpage/page.tsx:28 | the phrase starts with the dish's translated name and ends with " 個ください。" |
| NextPage.PhraseDeterminesQuantity | app/nextpage/page.tsx:28 | for one dish name, equal phrases mean equal quantities |
| NextPage.RequestIgnoresRest | app/nextpage/page.tsx:28 | dishes after the first do not change the request |
| NextPage.Receive | app/nextpage/page.tsx:35-41 | the phrase changes only to `translatedPhrases[0]`, and only when the list is truthy with a positive length |
| NextPage.ErrorBodyKeepsPhrase | app/nextpage/page.tsx:36-39 | an error body of the route leaves the phrase as it was |
| NextPage.FirstTranslationShown | app/nextpage/page.tsx:37-39 | a non-empty list shows its first element |
| NextPage.RouteAcceptsRequest | app/nextpage/page.tsx:27-34 | the route never answers the page with 400 and asks for "1. phrase" in the country's language |
| NextPage.Page | app/nextpage/page.tsx:52-62 | the no-order message exactly for an empty order; the translation exactly when it is truthy; else the pending message |

## Left out

- The generative model, DeepL, the search service and `fetch`: oracle parameters; their behaviour and the prompt wording are not modelled.
- Base64 encoding of uploads (`Buffer`): parts carry the bytes themselves.
- `JSON.parse` and `JSON.stringify`: oracle parameters; nothing is assumed about them except where a lemma names a round trip as a precondition.
- The regular-expression engine: only the fixed fence patterns are modelled, as leftmost substring searches; their equivalence to the regexes is a modelling claim, not a proof.
- `localStorage`, `speechSynthesis`, voice selection and router navigation: storage is a map; speech is reduced to the chosen tag.
- `Promise.all` in the DeepL route: modelled as a sequential map, which gives the same ordered result.
- `addImagesToMenuItems`: called by the hook but not defined in the source; an oracle parameter.
- The module-level API-key checks that throw at load time: not modelled; the handlers assume they loaded.
- Rendering-only components (menu list, loading screen, suggestions, home page) and the two selectors beyond their option values.
- `total.toFixed(2)` and price parsing: floating point, and the totals are not computed in the modelled files.
- The order list stored by the pages (`JSON.parse` of `orderItems`): the pages take the parsed dishes as input.
- The reset and close buttons of the cart: they only call the parent's handlers.
- Strings are sequences of Unicode scalar values, not UTF-16 code units; numbers are integers (no fractions, NaN or infinities).
- Property reads see own properties only; keys inherited from the object prototype are not modelled.
- Thrown values are reduced to a message; a non-`Error` throw is not distinguished.
- MenuItemView.Press: assumes the parent stores the quantity it is told; the parent is not part of this model.
- TranslationView.SpeechTag: `toLowerCase` is modelled on ASCII letters only; other case mappings are left out.
- NextPage.Receive: a `length` that is not a number is treated as not positive; JavaScript's numeric coercion of other values is left out.
- MenuTypes.MenuItemData: dishes are assumed to have the declared record shape; the hook passes on untyped `JSON.parse` values that nothing checks, so a missing `allergyInfo` or a string `spicyLevel` at run time is not modelled.
- TranslationDeepLView.Mount: a throw escaping the effect is an `Outcome.Threw`; React's handling of it is not modelled.
