# Verified model of the exceptioncoding.net GitHub data aggregator

The portfolio site shows the author's GitHub repositories. A build script,
`bin/fetch-github-data.js`, lists the account's public repositories page by page. It scrapes
the profile page for the pinned repositories, then merges and ranks the two. The result is
written as `{ "repositories": [...] }`. The page script, `src/scripts/main.js`, reads that
file and splits it into "Featured Projects" and "Recent Activity". It builds one card per
repository with tags, a title, links and an age label. It also keeps two small pieces of
state: the Konami-code key buffer and the typing animation.

This project models that logic in Dafny and proves what it promises:

- **Listing** (`repo_lister.dfy`): the pagination loop is an imperative method. It is proved
  equal to a specification function. Lemmas characterise that function, in both directions,
  by which pages were full, and relate the row count to the number of requests.
- **Scrape** (`pinned_scraper.dfy`): the loop over pinned-item blocks is modelled at the level
  of matched blocks and their captured groups. Any failure degrades to no entries.
- **Ranking** (`repo_processor.dfy`): filter, normalisation and pinned flag. The three-tier
  comparator drives a stable insertion sort, proved sorted, a permutation and stable. The
  featured subsequence and the output document are modelled too.
- **Pipeline** (`fetch_pipeline.dfy`): the sequential part of `main` after the three requests
  have completed.
- **Page script** (`showcase.dfy`, `interactions.dfy`): the section split, tech tags, topic
  and title formatting, demo-link and star-badge decisions and the `formatDate` buckets. The
  key buffer and the typewriter are classes whose methods update their fields.
- `text.dfy`, `seqs.dfy`, `wrappers.dfy` and `github_data.dfy` hold JavaScript string
  operations, filtering, optional values and the record types.

The page source of the listing is a function from page number to response. The profile page
is a sequence of blocks with optional captures. Timestamps are integers. `formatDate` takes
the whole number of days.

## Model

| member | source | states |
|---|---|---|
| `Seqs.Filter` | bin/fetch-github-data.js:184 | `Array.prototype.filter` never returns more elements than it was given; `Seqs.FilterMembers` and `Seqs.FilterCount` say which ones it keeps |
| `Seqs.FilterMembers` | bin/fetch-github-data.js:184 | an element is in the filtered list iff it is in the input and the predicate holds of it |
| `Seqs.FilterCount` | bin/fetch-github-data.js:184 | each kept value occurs as often as in the input, each dropped value not at all |
| `RepoLister.Headers` | bin/fetch-github-data.js:25-37 | User-Agent and Accept are always sent; Authorization is present iff the token is set and non-empty, and then reads `token <value>` |
| `RepoLister.Collect` | bin/fetch-github-data.js:76-98 | the listing from a page on never ends before that page |
| `RepoLister.FetchPublicRepositories` | bin/fetch-github-data.js:73-99 | the loop's result is exactly the listing `Collect` specifies from page 1 on |
| `RepoLister.CollectListed` | bin/fetch-github-data.js:80-95 | the listing ends with rows R after request n iff every earlier page was full, page n had fewer than 100 rows, and R is the concatenation of pages 1..n |
| `RepoLister.CollectAborted` | bin/fetch-github-data.js:80-95 | the listing aborts with status s at request n iff every earlier page was full and request n was refused with s |
| `RepoLister.ListedSize` | bin/fetch-github-data.js:83-94 | when pages never exceed 100 rows, every page but the last holds exactly 100 and the last fewer than 100 |
| `RepoLister.RequestCount` | bin/fetch-github-data.js:76-98 | a listing of r rows takes r / 100 + 1 requests (250 rows: 3; an empty first page: 1) |
| `RepoLister.TwoHundredFiftyRows` | bin/fetch-github-data.js:76-98 | pages of 100, 100 and 50 rows give all 250 rows after 3 requests |
| `Text.Trim` | bin/fetch-github-data.js:146 | trimming keeps the slice between leading and trailing whitespace and leaves no whitespace at either end |
| `Text.TrimEmpty` | src/scripts/main.js:117 | a string trims to empty iff it is all whitespace |
| `Text.TrimIdempotent` | bin/fetch-github-data.js:150 | trimming twice is trimming once |
| `Text.StripTags` | bin/fetch-github-data.js:146 | removing `<...>` tags leaves no `<` followed by `>`, adds no character and never lengthens the text |
| `Text.StripTagsNoTag` | bin/fetch-github-data.js:146 | text without a complete tag is left unchanged |
| `Text.StripTagsIdempotent` | bin/fetch-github-data.js:146 | stripping tags twice is stripping once |
| `Text.StripTagsPlainPrefix` | bin/fetch-github-data.js:146 | text before the first `<` survives unchanged and the rest is stripped on its own |
| `Text.StripTagsDropsTag` | bin/fetch-github-data.js:146 | a complete tag `<...>` (no `>` inside) is deleted whole and the text after it is stripped in turn |
| `Text.TrimKeepsNoTag` | bin/fetch-github-data.js:146 | for a description without a complete tag, stripping after trimming removes nothing |
| `Text.Lower` | bin/fetch-github-data.js:180 | lower-casing maps every character and keeps the length |
| `Text.ReplaceFirst` | src/scripts/main.js:100 | same length; exactly the position of the first occurrence is replaced, every other character is kept (so without an occurrence nothing changes) |
| `Text.ReplaceAll` | src/scripts/main.js:111 | every occurrence is replaced and nothing else changes |
| `Text.NatToString` | src/scripts/main.js:156-159 | the decimal rendering is non-empty digits without a leading zero, and reads back as the number |
| `Text.UpperChar` | src/scripts/main.js:99-100 | an ASCII lower-case letter becomes its upper-case letter; every other character is kept |
| `PinnedScraper.EntryOf` | bin/fetch-github-data.js:138-157 | an entry keeps the block's name; its description holds no tag, is '' without a capture and is the trimmed-then-stripped capture otherwise; its language is present iff a label was captured and is exactly the trim of that label; a tag-free captured description becomes exactly its trim; its URL is `https://github.com/<user>/<name>` |
| `PinnedScraper.ExtractPinned` | bin/fetch-github-data.js:130-161 | the block loop yields exactly the entries `Extracted` specifies |
| `PinnedScraper.Extracted` | bin/fetch-github-data.js:130-161 | the scrape yields at most one entry per block |
| `PinnedScraper.FetchPinnedRepositories` | bin/fetch-github-data.js:104-171 | a failed request or a non-2xx status yields []; otherwise the extracted entries |
| `PinnedScraper.ExtractedIsFilterMap` | bin/fetch-github-data.js:131-161 | the entries are exactly one per block with a name match, in block order |
| `PinnedScraper.NoNamesNoEntries` | bin/fetch-github-data.js:135-136 | blocks without a name match yield nothing |
| `PinnedScraper.ExtractedAppend` | bin/fetch-github-data.js:131-161 | extraction distributes over the blocks of the page in document order |
| `RepoProcessor.PinnedNames` | bin/fetch-github-data.js:180 | a name is in the set iff some pinned entry's name lower-cases to it |
| `RepoProcessor.Normalize` | bin/fetch-github-data.js:185-195 | name, URL, language, stars and update time are copied; the description falls back to the placeholder iff it is missing or empty; the homepage is null iff missing or empty; topics are the first min(5, n) raw topics, [] when absent; pinned iff the lower-cased name is in the pinned set |
| `RepoProcessor.NormalizeFields` | bin/fetch-github-data.js:185-195 | missing or empty description becomes the placeholder, else kept; homepage null iff missing or empty; topics are the first min(5, n) raw topics in order, [] when absent; pinned iff some pinned name matches ignoring case; other fields copied |
| `RepoProcessor.Compare` | bin/fetch-github-data.js:196-202 | the sign decides tier by tier: a pinned repository first; among equals in pinning, more stars first; among equal stars, the later update first, and zero only on equal update times |
| `RepoProcessor.CompareIsRanking` | bin/fetch-github-data.js:196-202 | the comparator puts a first or ties iff a ranks first (pinned first, then more stars, then later update), ties iff the sort keys are equal, and is antisymmetric |
| `RepoProcessor.Insert` | bin/fetch-github-data.js:196-202 | inserting adds exactly the one element, in front or after the first element |
| `RepoProcessor.InsertSorted` | bin/fetch-github-data.js:196-202 | inserting into a ranked list keeps it ranked |
| `RepoProcessor.OrderedApart` | bin/fetch-github-data.js:196-202 | two repositories the comparator orders strictly never both survive filtering by one sort key |
| `RepoProcessor.Sort` | bin/fetch-github-data.js:196-202 | the sort's output is ranked and a permutation of its input |
| `RepoProcessor.SortedAllPairs` | bin/fetch-github-data.js:196-202 | a list ranked pair by adjacent pair is ranked for every pair |
| `RepoProcessor.InsertStable` | bin/fetch-github-data.js:196-202 | an inserted repository lands before every repository with the same sort key |
| `RepoProcessor.SortStable` | bin/fetch-github-data.js:196-202 | repositories the comparator ties keep their input order |
| `RepoProcessor.ProcessRepositoryData` | bin/fetch-github-data.js:176-210 | the processed list is ranked and a permutation of the normalised public repositories; featured is its pinned subsequence |
| `RepoProcessor.NormalizeAll` | bin/fetch-github-data.js:185-195 | one output per listed repository, each its normalised form, in the same order |
| `RepoProcessor.NormalizeAllMembers` | bin/fetch-github-data.js:185-195 | the mapped list holds the normalised form of each listed repository and nothing else |
| `RepoProcessor.ProcessedArePublished` | bin/fetch-github-data.js:183-195 | exactly the non-fork, non-private repositories come out, as many as went in |
| `RepoProcessor.ProcessedFields` | bin/fetch-github-data.js:186-194 | every output entry has at most 5 topics and is pinned iff its name matches a pinned name ignoring case |
| `RepoProcessor.NothingPinnedWithoutEntries` | bin/fetch-github-data.js:176-204 | with no pinned entries nothing is pinned and nothing is featured |
| `RepoProcessor.FilterKeepsSorted` | bin/fetch-github-data.js:204 | a subsequence of a ranked list is ranked |
| `RepoProcessor.FeaturedSorted` | bin/fetch-github-data.js:204 | the featured repositories are ranked |
| `RepoProcessor.GenerateGitHubData` | bin/fetch-github-data.js:215-219 | the document holds the processed list unchanged |
| `RepoProcessor.ExampleNormalized` | bin/fetch-github-data.js:180-195 | in the worked example both repositories are published and only B, named by the pinned entry, is flagged pinned |
| `RepoProcessor.PinnedFirstExample` | bin/fetch-github-data.js:196-202 | A (10 stars) and pinned B (50 stars) come out as B, pinned, then A |
| `FetchPipeline.Run` | bin/fetch-github-data.js:258-282 | the run fails iff the profile request or a listing page was refused; otherwise the document is the processing of the listing and the scraped entries; a failed scrape leaves every repository unpinned |
| `Showcase.SplitRepositories` | src/scripts/main.js:232-233 | featured is the pinned subsequence; recent is the first min(5, k) unpinned repositories in order |
| `Showcase.SectionsDisjoint` | src/scripts/main.js:232-233 | featured are all pinned, recent all unpinned, no repository is in both, and featured plus unpinned is the whole list |
| `Showcase.FormatTopic` | src/scripts/main.js:99-100 | same length; the first character upper-cased; exactly the first '-' after it becomes a space; all else kept |
| `Showcase.FormatTopics` | src/scripts/main.js:98-101 | every topic is formatted, in order |
| `Showcase.LanguageTag` | src/scripts/main.js:77-94 | a tag exists iff the language is set and is a key of the language map, and it is the mapped value |
| `Showcase.TopicTags` | src/scripts/main.js:96-101 | the first min(4, k) (featured) or min(2, k) (recent) topics, each formatted, in order |
| `Showcase.TechTags` | src/scripts/main.js:91-102 | the language's tag first when it has one; then the shown topics formatted, in order; at most 5 (featured) or 3 (recent) tags |
| `Showcase.CapitalizeWords` | src/scripts/main.js:112 | exactly the word characters that follow no word character are upper-cased |
| `Showcase.DisplayName` | src/scripts/main.js:110-112 | every '-' becomes a space and each word-starting word character is upper-cased; nothing else changes |
| `Showcase.HasDemoLink` | src/scripts/main.js:116-119 | the demo link is shown iff the homepage is set and not all whitespace |
| `Showcase.AgeOf` | src/scripts/main.js:155-159 | 1 day is yesterday; under 7 days is days (0 included); under 30 is weeks rounded up; under 365 is 30-day months rounded up; else 365-day years rounded up |
| `Showcase.AgeRanges` | src/scripts/main.js:157-158 | weeks run 1..5, months 1..13 (361-364 days read "13 months ago"), years from 1 |
| `Showcase.FormatDate` | src/scripts/main.js:149-160 | the label is "yesterday" iff the day count is 1; otherwise it is `<n> days ago`, `<n> weeks ago`, `<n> months ago` or `<n> years ago` with the bucket's count in decimal |
| `Showcase.GenerateProjectCard` | src/scripts/main.js:75-147 | the title is the display name, the description is the repository's, and the tags are the tech tags; the demo link is shown iff the homepage is non-blank; activity only on recent cards, with the age label and a star badge iff stars > 0, showing the repository's star count |
| `Interactions.PushKey` | src/scripts/main.js:324-327 | the new key is last, the earlier keys are a suffix of the old buffer, and one key is dropped exactly when the buffer already held ten or more |
| `Interactions.Buffered` | src/scripts/main.js:323-328 | after n key presses the buffer holds the last min(n, 10) keys |
| `Interactions.TriggerMeansSequence` | src/scripts/main.js:329 | the buffer equals the Konami sequence iff the last 10 keys pressed are that sequence |
| `Interactions.BufferedIsTarget` | src/scripts/main.js:323-329 | for any ten-key sequence, the buffer equals it iff the last 10 keys pressed are that sequence |
| `Interactions.KonamiListener.constructor` | src/scripts/main.js:309 | the buffer starts empty |
| `Interactions.KonamiListener.KeyDown` | src/scripts/main.js:323-336 | a key press pushes onto the buffer and drops the oldest past 10 keys; the buffer stays the last keys pressed; the effect fires iff the buffer is the Konami sequence |
| `Interactions.Next` | src/scripts/main.js:291-302 | a step keeps the position valid: line index in [0, 4), character index within the line |
| `Interactions.FinishLine` | src/scripts/main.js:291-302 | from anywhere in line t, the remaining steps plus one reach the start of line (t + 1) mod 4 |
| `Interactions.Typewriter.constructor` | src/scripts/main.js:287-288 | the animation starts at line 0, character 0 |
| `Interactions.Typewriter.Type` | src/scripts/main.js:291-303 | a step shows the prefix of length charIndex + 1 and advances, or at the end of the line resets charIndex to 0 and moves textIndex to (textIndex + 1) mod 4; the position stays valid and the shown text is the typed prefix |

## Left out

- Network and files: `fetchGitHubAPI`, the profile-page request, `saveData` and `process.exit` are left out. The directory creation, JSON serialisation and file write are left out, and so is console logging. The model takes the profile result, each page's response and the scraped blocks as inputs. A failed file write is not modelled.
- `Promise.all` concurrency in `main`: the model runs the three requests one after another. Which of two failing requests is reported first is not modelled; the run just fails.
- `RepoLister.FetchPublicRepositories` requires a page number from which on no page is full (`EndsBy`). The source has no page cap and does not terminate if the endpoint keeps returning full pages.
- The regular expressions of the scrape: each block is given with what the name, description and language patterns capture. The non-greedy `</div>` cut-off and the `lastIndex` handling are not modelled. The language colour capture is left out because it is not used.
- `Text.Lower`, `Text.UpperChar`, `Text.LowerChar`: only ASCII letters change case. JavaScript's `toLowerCase` and `toUpperCase` follow full Unicode, including characters whose case changes the length.
- Date handling: `updatedAt` is an integer timestamp. `new Date(...)` parsing and the NaN it gives for malformed dates are not modelled. `formatDate` takes the day count; `Date.now()`, `Math.abs` and the millisecond arithmetic are left out.
- Numbers: star counts are unbounded integers, not IEEE doubles.
- `Showcase.TechTags`: the language map is a Dafny map. A JavaScript object also answers for inherited keys such as `constructor`. A repository whose language is such a name would get a function as a tag; no GitHub language has such a name.
- `Showcase.SplitRepositories`: `fetchGitHubData`'s guard for a document without `repositories` is left out, because both the fetcher and the fallback always write the array.
- Card markup: the HTML templates, `updateProjectShowcase`, counters and all other DOM updates are left out. The card keeps only its content: title, description, tags, links and activity.
- `Interactions.Typewriter.Type`: the `setTimeout` delays are left out. The pause at the end of a line and the reset after it are one step.
- Page effects without data logic are left out: particles (`Math.random`), scroll reveal, smooth scrolling and the theme toggle with `localStorage`.
- `bin/optimize-images.js`, `bin/minify-html.js`, `bin/minify-json.js` and `Gruntfile.js` only wrap external tools and the file system; they are not part of this model.
- `fetchPinnedRepositories` trims the captured description and then strips tags (bin/fetch-github-data.js:146), so whitespace next to a removed tag can remain; the model does the same.
