# Zillow listing scraper and form submitter, modelled in Dafny

The modelled program takes the listing cards from a Zillow clone page and turns each one into a `{link, price, address}` record. It then types each record into a Google Form, making up to three attempts per record, and counts how many were accepted. This project models `main.py`:

- `wrappers.dfy` (`Wrappers`): the `Option` type. An absent page element or a failed page fetch is `None`.
- `text.dfy` (`Text`): the Python string operations the program uses, written out over `seq<char>`:
  - `str.strip()` over the full `str.isspace()` set;
  - `str.split(c, 1)[0]`;
  - `str.replace(c, "")`;
  - the substring test `pat in s`.

  Each is a plain function, and a lemma beside it states what it means.
- `scraper.dfy` (`Scraper`): card-to-record normalisation and the `PropertyScraper` class.
  - `properties` is a `seq` field that `ParseProperties` extends in place, one card at a time.
  - The HTML parser is out of scope. A card is given as the three raw strings the parser would hand back: the anchor's `href`, the price line's text and the address text. Each is `None` when its element is missing.
- `form_submit.dfy` (`FormSubmit`): the decision one submission attempt makes, the retry loop, and the count of accepted records.
  - The browser is out of scope. What one attempt observes of it is a `FormPage`:
    - whether the text inputs appeared before the wait ran out;
    - how many inputs there are;
    - whether the send button was found;
    - the address the browser lands on after the click.
  - The observations of a whole run are a function `pages(i, a)` giving the page that attempt `a` of record `i` sees.
  - Whether the browser could be started is a parameter `setupOk`.

Record normalisation, as the code does it:

- **link**: the `href`, or `"N/A"` when the card has no anchor.
- **price**: the price text, or `"N/A"`. It is cut before the first `'+'`, then before the first `'/'`, then stripped. Cutting at `'+'` and then at `'/'` is the same as cutting at whichever comes first (`CleanPriceSpec`).
- **address**: the address text, or `"N/A"`. It is stripped, then every `'|'` is deleted.

Two consequences of the code are easy to miss:

- A card without a price line yields the price `"N"`, not `"N/A"`. The `"N/A"` sentinel itself goes through the `'/'` cut (`SentinelPrice`).
- `"1 Elm | Reno"` becomes `"1 Elm  Reno"` with two spaces. Only the bar is deleted; the spaces on both sides of it stay (`BarDeleted`, `BarAddressExample`).

Submission, as the code does it:

- An attempt fails without typing anything when there is no browser, when the inputs never appear, or when fewer than three appear.
- Otherwise the link, price and address go into inputs 0, 1 and 2.
- The attempt is accepted only when the send button was found and `"formResponse"` occurs in the resulting address.
- Each record gets up to `MaxRetries = 3` attempts and stops at the first accepted one.
- The run returns `(accepted records, number of records)`. When the browser cannot be started, it returns `(0, number of records)`.

## Model

| member | source | states |
|---|---|---|
| Text.Strip | main.py:101 | `str.strip()`: never longer than its input; specified by `StripSpec` and `StripUnique` |
| Text.Before | main.py:101 | `str.split(c, 1)[0]`: never longer than its input; specified by `BeforeSpec` |
| Text.DeleteAll | main.py:106 | `str.replace(c, "")`: never longer than its input; specified by `DeleteAllSpec`, `DeleteAllAppend` and `DeleteAllAbsent` |
| Text.Contains | main.py:261 | the substring test; a match needs the pattern to fit in the string; specified by `ContainsIffOccurs` |
| Text.LeadingSpacesSpec | main.py:101 | the leading run counted by `strip()` is all whitespace and ends at the first non-whitespace character |
| Text.TrimmedEndSpec | main.py:101 | the trailing run dropped by `strip()` is all whitespace and the character before it is not |
| Text.StripSpec | main.py:101 | `strip()` returns a slice of its input with only whitespace on both sides of it, not starting or ending with whitespace, made of characters of the input |
| Text.StripUnique | main.py:106 | whitespace + a core that neither starts nor ends with whitespace + whitespace strips to exactly that core |
| Text.StripIdempotent | main.py:106 | stripping an already stripped string changes nothing |
| Text.IndexOfSpec | main.py:101 | the index found is that of the first occurrence of the character, or the length when there is none |
| Text.BeforeSpec | main.py:101 | `split(c, 1)[0]` is a prefix without `c` that ends at the first `c` or at the end of the string |
| Text.BeforeFirst | main.py:101 | for `x` without `c`, `split(c, 1)[0]` of `x + c + y` is `x`, and of `x` alone it is `x` |
| Text.DeleteAllSpec | main.py:106 | `replace(c, "")` leaves no `c` and keeps every other character with its number of occurrences |
| Text.DeleteAllAppend | main.py:106 | `replace(c, "")` distributes over concatenation, so no other character moves |
| Text.DeleteAllAbsent | main.py:106 | `replace(c, "")` leaves a string without `c` unchanged |
| Text.ContainsIffOccurs | main.py:261 | the substring test holds exactly when the pattern occurs at some index of the string |
| Scraper.CleanPrice | main.py:99-101 | the price cleanup, never longer than the raw text; specified by `CleanPriceSpec` and `SentinelPrice` |
| Scraper.CleanAddress | main.py:104-106 | the address cleanup, never longer than the raw text; specified by `CleanAddressSpec`, `BarDeleted` and `SentinelAddress` |
| Scraper.PriceEndSpec | main.py:101 | the price cut point is the first `'+'` or `'/'`, or the end of the text |
| Scraper.StripKeeps | main.py:101 | a character in a stripped string was in the string before stripping |
| Scraper.PriceCut | main.py:101 | cutting at `'+'` and then at `'/'` is cutting at whichever comes first |
| Scraper.CleanPriceSpec | main.py:99-101 | the cleaned price is the stripped text before the first `'+'` or `'/'`, and contains neither |
| Scraper.CleanAddressSpec | main.py:104-106 | the cleaned address has no bar character and otherwise holds the stripped text's characters with their counts |
| Scraper.ExtractRecordSpec | main.py:94-112 | each present element is cleaned on its own, whatever the others are: the href is the link, the price is the stripped text before the first `'+'` or `'/'`, the address holds the stripped text's characters without bars; for any card the price has neither marker and the address no bar |
| Scraper.ExtractRecord | main.py:94-113 | the record of one card, each field taken from its own element or the `"N/A"` default; specified by `ExtractRecordSpec` and `MissingElementSentinels` |
| Scraper.SentinelPrice | main.py:99-101 | the `"N/A"` sentinel cleans to the price `"N"` |
| Scraper.SentinelAddress | main.py:104-106 | the `"N/A"` sentinel cleans to the address `"N/A"` |
| Scraper.MissingElementSentinels | main.py:94-106 | a missing anchor gives the link `"N/A"`, a missing price line gives the price `"N"`, a missing address gives `"N/A"` |
| Scraper.PlusPriceExample | main.py:101 | `"$500,000+"` cleans to `"$500,000"` |
| Scraper.BarDeleted | main.py:106 | deleting the bar between two bar-free parts joins them unchanged, keeping the spaces on both sides of the bar |
| Scraper.BarAddressExample | main.py:106 | the address text ` 1 Elm `, bar, ` Reno ` cleans to `"1 Elm  Reno"` with two spaces |
| Scraper.ExtractAll | main.py:92-112 | one record per card, record `i` being the record of card `i` |
| Scraper.ExtractAllSnoc | main.py:92-112 | one more card appends exactly that card's record |
| Scraper.PlainAddress | main.py:104-106 | an address without a bar only loses its outer whitespace |
| Scraper.PlainAddressExample | main.py:106 | `" 2 Elm Rd "` cleans to `"2 Elm Rd"` |
| Scraper.TwoCardListing | main.py:92-112 | a full card gives `("/home/1", "$500,000", "1 Elm  Reno")`; a card without a price line gives `("/home/2", "N", "2 Elm Rd")` |
| Scraper.PropertyScraper.constructor | main.py:44-53 | a new scraper keeps its URL and has no records |
| Scraper.PropertyScraper.ParseProperties | main.py:71-119 | reports success exactly when there is a card; appends the cards' records, in order, after the records already stored |
| Scraper.PropertyScraper.Scrape | main.py:156-168 | a failed or empty fetch gives `(false, 0)` and stores nothing; otherwise it parses and returns the parse result and the size of the whole stored list |
| Scraper.PropertyScraper.GetProperties | main.py:124-131 | returns the stored list |
| Scraper.PropertyScraper.SaveToCsv | main.py:133-154 | reports a save exactly when there are records and the write went through |
| FormSubmit.SubmitProperty | main.py:213-276 | one attempt: either nothing is typed or exactly the record's link, price and address into inputs 0, 1, 2, and an accepted attempt always typed them; fully specified by `SubmitPropertySpec` |
| FormSubmit.SubmitPropertySpec | main.py:213-276 | an attempt types link, price and address into inputs 0, 1, 2 exactly when there is a browser and at least three inputs loaded; it is accepted exactly when, besides, the button was found and `"formResponse"` occurs in the address reached |
| FormSubmit.Tries | main.py:298-313 | the attempts a record uses, one to three; specified by `TriesSpec` |
| FormSubmit.Delivered | main.py:298-313 | a record is accepted when its last attempt went through; specified by `DeliveredIffSomeAttemptOk` |
| FormSubmit.TriesFromSpec | main.py:298-313 | counting attempts from `a` on: all attempts before the last one counted failed, and the count stops early only at an accepted attempt |
| FormSubmit.TriesSpec | main.py:298-313 | a record uses one to three attempts; all but the last failed; fewer than three means the last was accepted |
| FormSubmit.DeliveredIffSomeAttemptOk | main.py:298-303 | a record is accepted exactly when one of its three attempts is; otherwise all three were made |
| FormSubmit.AttemptsOutcome | main.py:299-313 | the retry loop stops at attempt `a` with the record accepted after `a + 1` tries, or after the third attempt with the record not accepted |
| FormSubmit.CountDelivered | main.py:291-316 | the accepted count never exceeds the number of records counted |
| FormSubmit.CountTrueSplit | main.py:291-316 | the set flags and the clear flags below `n` split the `n` indices between them |
| FormSubmit.CountDeliveredNext | main.py:301-302 | one more record adds one to the count exactly when it is accepted |
| FormSubmit.CountDeliveredIsCountTrue | main.py:291-316 | the accepted count is the number of accepted outcomes |
| FormSubmit.DeliveredPlusExhaustedIsTotal | main.py:291-316 | the count is the size of the set of accepted records; accepted plus out-of-attempts records make up all of them |
| FormSubmit.AllTimeoutsDeliverNothing | main.py:268-270 | when the form never loads, nothing is accepted and every record uses all three attempts |
| FormSubmit.FirstAttemptsAcceptedDeliverAll | main.py:299-303 | when every first attempt is accepted, every record is accepted after one attempt |
| FormSubmit.GoogleFormSubmitter.constructor | main.py:174-185 | a new submitter keeps its form URL and headless flag and has no browser |
| FormSubmit.GoogleFormSubmitter.SubmitWithRetries | main.py:298-313 | the retry loop reports acceptance exactly when the record is accepted, after the number of attempts `Tries` gives |
| FormSubmit.GoogleFormSubmitter.SubmitEach | main.py:291-314 | with the browser up, every record goes through the retry loop in order; the count is the number of accepted records and each record used `Tries` attempts |
| FormSubmit.GoogleFormSubmitter.SubmitAllProperties | main.py:278-316 | total is the number of records; without a browser the count is 0 and nothing is attempted; otherwise the count is the number of accepted records and each record used `Tries` attempts |

## Left out

- Fetching the page (`fetch_page`, HTTP, timeouts, UTF-8 decoding) is a parameter of `Scrape`: `None` when the fetch failed, else the text.
- The HTML parser is a parameter of `Scrape` that maps the page text to its cards. That covers BeautifulSoup, the list-item class name and the element lookups inside a card. A card carries the raw strings the lookups would return.
- Scraper.PropertyScraper.ParseProperties: exceptions are not modelled, neither the per-card ones (which skip the card) nor the ones around the whole parse (which return false). With a card given as three optional strings, no step of the per-card work can raise.
- Scraper.PropertyScraper.SaveToCsv: the CSV file itself (pandas, the file name, the column layout) is not modelled. Whether the write went through is a parameter.
- Scraper.PropertyScraper.GetProperties: returns a snapshot of the stored records. In the source it is the scraper's own list, so later parses also show up in a list a caller already holds. That aliasing is not modelled.
- `setup_driver` (Chrome options, headless flags, WebDriver start) is not modelled. Its result is the `setupOk` parameter of `SubmitAllProperties`.
- The browser is modelled only through `FormPage`, one per attempt. That covers navigation, the five-second wait, the typing and the click.
- FormSubmit.SubmitPropertySpec: an exception raised while typing counts the same as a missing button, an attempt that is not accepted. The model does not record what was typed before the failure.
- The `except` branch of the retry loop is not modelled, because `submit_property` catches every exception itself and that branch cannot be reached.
- `close`, `__enter__` and `__exit__` are not modelled, and neither are `download_responses` and `main`.
- The sleeps and all logging are not modelled, because they change no result.
- Characters are compared by code point. Only Python's `str.isspace()` set is modelled. No Unicode normalisation is done, and none is done by the program either.
