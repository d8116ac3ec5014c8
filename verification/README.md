# bbs-poll-and-write, modelled in Dafny

The program polls the listing page of one bulletin board (clien.net's
"park" board). It extracts `(author name, article link)` pairs. For every
pair whose author is on a configured block list, it posts a fixed reply to
the article through a logged-in browser session. A persistent set of visited
links makes sure each article is written to at most once across cycles.
Across restarts the guarantee holds only while every save succeeds and the
file reads back: an unreadable file starts the cache empty, so saved links
are written again, and a save that fails after opening the file leaves it
truncated; unless a later save succeeds, the next start-up ends.

This project models the decision logic of `main.py`, separated from its I/O:

- `wrappers.dfy`: `Option` and `Result`.
- `config.dfy` (module `UserConfig`): the configuration dictionary,
  `is_valid_user_config`, `UserConfigIR`, and the IR building done by the
  module-level `poll_and_write_bbs`. It also covers what `main` does with
  the two: reject, crash, or start polling.
- `cache.dfy` (module `LinkCache`): `VisitedLinkCache` as a set. The
  pickle file is modelled by four states: absent, unreadable, truncated by
  a failed save, or holding a saved set. Saving is modelled with its three
  outcomes: success, `open` failing, or a failure after `open`.
- `html.dfy` (module `Html`): an abstract element tree standing in for
  BeautifulSoup's parse tree. It has `find` (first match below a tag, in
  document order), `find_all`, and a document-wide search that also
  reports each hit's parent.
- `extractor.dfy` (module `Extractor`):
  `_get_list_of_author_name_and_article_link_tuple`.
- `poll.dfy` (module `Poll`): the write gate of `_write_output`, one cycle
  of `_do_oneshot_poll_and_write_bbs` as a pure state transition,
  `_get_time_to_sleep_in_sec`, and finitely many turns of the polling loop.

The browser steps that open the article, type the reply and submit it are
one abstract `Write(link)` event. A cycle's `written` list is the sequence
of those events in the order they are issued. The fetched page is an
`Option<Page>`. A `Page` holds the response text and the element tree the
parser builds from it. The random jitter is passed in as a parameter.

The guarantee the model proves is at-most-once writing:

- Within one cycle, the written links have no duplicates.
- No written link was in the cache before the cycle.
- After the cycle, the cache holds exactly the old links plus the written
  ones. Equivalently, it holds the old links plus every matched link.
- The written list equals an independent reference: the matched links in
  listing order, first occurrences only, minus those already cached.
- Polling the same listing again writes nothing.
- Over any finite number of cycles, no link is written twice, and no link
  that was already in the loaded cache file is written.
- An unreadable cache file breaks this across restarts: a link saved
  before is written again.

Behaviour of `main.py` a reader may not expect:

- Validation checks `users`, `id` and `pw`. It does not check the
  multi-site `web_site`/`alias` schema that `tests/main_test.py` uses
  (tests/main_test.py:62-71).
- There is one site and no memo rule, although `tests/main_test.py`
  expects memo text in the extracted entries (tests/main_test.py:44-45).
- A cache file that exists but fails to read with an I/O error is logged,
  and the cache starts empty. It is not a fatal start-up error.
- `is_valid_user_config` never checks `blocked_author_names`, which the IR
  building reads. So a configuration can pass validation and still crash
  the start-up with a `KeyError`. `UserConfig.ValidationDoesNotImplyBuild`
  exhibits such a configuration.

## Model

| member | source | states |
|---|---|---|
| `UserConfig.IsValidUserConfig` | main.py:265-276 | The early-return loop accepts exactly when `users` is present and non-empty and every user has both `id` and `pw`. |
| `UserConfig.NewUserConfigIR` | main.py:31-34 | A new IR has no credentials and no blocked author. |
| `UserConfig.UpdateBlockedAuthorNameSet` | main.py:36-37 | Afterwards the name is blocked. No other name's membership changes, and the credentials are untouched. |
| `UserConfig.AddBlockedAuthorNames` | main.py:246-247 | Folding the updates over the list blocks exactly the names already blocked plus those in the list. The credentials are untouched. |
| `UserConfig.BuildUserConfigIR` | main.py:240-247 | Building succeeds exactly when `users` is non-empty, `users[0]` has `id` and `pw`, and `blocked_author_names` is present. On success the credentials come from `users[0]`, and the blocked set has exactly the listed names. |
| `UserConfig.ValidConfigBuildsUnlessNamesMissing` | main.py:240-276 | For a configuration that validation accepts, building fails exactly when `blocked_author_names` is absent. It then fails with a missing-key error for that key. |
| `UserConfig.ValidationDoesNotImplyBuild` | main.py:240-276 | Some configuration passes validation and still fails to build. |
| `UserConfig.BuildIgnoresOrderAndRepetition` | main.py:34-37 | Two name lists with the same members build the same IR, whatever their order or repetitions. Duplicates collapse. |
| `UserConfig.Start` | main.py:279-284 | Start-up rejects exactly the invalid configurations. It crashes exactly on a valid one lacking `blocked_author_names`. Otherwise it polls with the built IR. |
| `LinkCache.Load` | main.py:44-74 | An absent file or an I/O error gives an empty cache. A readable file gives the saved set. A truncated file, and only that, ends start-up. |
| `LinkCache.IsHit` | main.py:52-53 | `is_hit` is membership in the visited set. |
| `LinkCache.AddEntry` | main.py:48-50 | After `add_entry(l)`, `is_hit(l)` holds and no other link's membership changes. |
| `LinkCache.Save` | main.py:55-61 | A successful save makes reloading give back the same cache. A save whose `open` fails leaves the file as it was. A save that fails after `open` leaves a file whose reload fails. |
| `LinkCache.AddEntryIdempotent` | main.py:48-53 | Adding a link twice is the same as adding it once. Adding a link that is already a hit changes nothing. |
| `LinkCache.AddEntryMonotone` | main.py:48-49 | Membership never shrinks. It grows by at most the added link. |
| `LinkCache.CommittedLinkSurvivesRestart` | main.py:48-74 | After `add_entry` has saved successfully, a reload has the new link and every earlier link as hits. After a save that fails past `open`, the reload fails. |
| `Html.FindIsFirstOfFindAll` | main.py:116 | `find` succeeds exactly when `find_all` is non-empty. It then returns `find_all`'s first element. |
| `Html.FindAllWithParentSound` | main.py:112-122 | The parent-tracking search finds the same tags, in the same document order, as `find_all`. Every hit lies below the searched tag and has a parent that has it among its children. That parent is the searched tag itself or a tag below it, as bs4's `.parent` is. |
| `Extractor.ExtractFromBlock` | main.py:116-133 | A block's entry, when there is one, has a link that starts with `https://www.clien.net`. |
| `Extractor.ExtractFromBlockSound` | main.py:113-133 | The author of an entry is the `title` of a titled span below the block. The link is the base plus the `href` of an anchor below the parent. A block with no titled span, no parent, no `list_title` div or no `a[href]` yields nothing. |
| `Extractor.ExtractFromBlockByFindAll` | main.py:116-130 | A block yields an entry exactly when all four searches find something. The entry is built from the first hit of each. |
| `Extractor.ExtractAll` | main.py:110-134 | There are at most as many entries as blocks. Every link carries the service base. |
| `Extractor.ExtractAllAppend` | main.py:113-133 | Extraction keeps document order: the entries of `a + b` are those of `a` followed by those of `b`. |
| `Extractor.ExtractAllMembership` | main.py:113-133 | An entry is extracted exactly when some block yields it. |
| `Extractor.Extract` | main.py:111-134 | A page yields at most one entry per `list_author` block, and every link carries the service base. |
| `Extractor.ExtractFromPage` | main.py:111-133 | Every entry of a page comes from that page. Its author is the `title` of a titled span of the document, and its link is the service base followed by the `href` of an anchor of the document. |
| `Extractor.GetListOfAuthorNameAndArticleLink` | main.py:105-134 | The extractor returns exactly the page's entries. The list is no longer than the number of `list_author` blocks, and every link carries the base. |
| `Extractor.ExtractEach` | main.py:113-133 | The loop over the blocks, appending each well-formed block's entry, builds the same list as the recursive definition. |
| `Extractor.PageBlocksHaveParents` | main.py:122-124 | Every `list_author` block found on a page has a parent, so the parent check never drops a block. |
| `Poll.IsBlocked` | main.py:176 | An entry is acted on when its author is in the blocked set. |
| `Poll.MatchedLinks` | main.py:174-177 | A link is matched exactly when some entry with a blocked author carries it. There are at most as many matched links as entries. |
| `Poll.WriteOutput` | main.py:136-167 | A cached link is not written. An uncached link is written once and then committed. Either way the link is a hit afterwards, and the cache grows by exactly what was written. |
| `Poll.WriteMatched` | main.py:173-179 | Within a cycle no link is written twice, and no link cached before the cycle is written. Only matched links are written. The new cache is the old one plus the written links, which is also the old one plus all matched links. |
| `Poll.WrittenAreFreshFirsts` | main.py:136-179 | The written links are exactly the reference list: matched links in listing order, first occurrences only, minus those cached before. |
| `Poll.AllCachedWritesNothing` | main.py:136-179 | When every matched link is already cached, a cycle writes nothing and leaves the cache unchanged. |
| `Poll.OneshotPoll` | main.py:169-179 | A missing or empty page writes nothing and leaves the cache unchanged. Otherwise the at-most-once facts hold, and each written link comes from an extracted entry with a blocked author. Every such entry's link is cached afterwards. |
| `Poll.RepeatedPollWritesNothing` | main.py:169-179 | Running the same cycle again on the resulting cache writes nothing and changes nothing. |
| `Poll.SingleMatchWrittenOnce` | main.py:169-179 | Take a page with one uncached entry whose author is blocked. It is written exactly once and becomes a hit. A second identical cycle writes nothing. |
| `Poll.TimeToSleepInSec` | main.py:181-183 | For a draw in `[-10, 10)`, the sleep lies in `[20, 39]` seconds and exceeds the base of 30 by the draw. |
| `Poll.EverySleepReachable` | main.py:181-183 | Every sleep from 20 to 39 seconds is produced by some draw. |
| `Poll.PollLoop` | main.py:233-237 | Over any finite number of turns, no link is written twice and no link of the starting cache is written. The final cache is the starting cache plus everything written. Every sleep lies in `[20, 39]`. |
| `Poll.PollAndWriteBbs` | main.py:89-237 | The constructor loads the cache (89-90), then the loop of `poll_and_write_bbs` runs (233-237). A truncated file, and only that, ends start-up. Otherwise no link is written twice and no saved link is written. With no file, the final cache is exactly the written links. |
| `Poll.UnreadableFileRewrites` | main.py:63-74 | A link saved in a readable file is not written again. If the file is unreadable, the same page writes that link again. |

## Left out

- Selenium: the browser session, the login page, the device-registration
  dialog, `LinkVisitorClientContext.clean_up`, and the driver calls and
  fixed sleeps inside `_write_output` (main.py:142-164, 190-231). These
  steps are foreign browser automation. They are one abstract `Write(link)`
  event that always completes. In the code, a Selenium exception raised
  there propagates out of the loop and ends the process. The model has no
  such failure path.
- `_get_page_dump` (main.py:93-103) is an HTTP request. The fetched page
  is an `Option<Page>` input, with `None` for a connection error.
- `read_user_config` (main.py:254-262) reads a YAML file. The configuration
  is a `ConfigDict` input. The `{}` returned on an I/O error is
  `ConfigDict(None, None)`, which validation rejects.
- Pickle serialisation (main.py:55-74) is left out. Only the set semantics,
  the four states of the file and the three outcomes of a save are
  modelled. Any undecodable file is the one `Truncated` state.
- BeautifulSoup parsing is left out. The parse tree is an input. Text
  nodes are not modelled, because the extractor never reads text. The
  truthiness checks on found tags are "was something found", because a
  found tag is always truthy.
- The `while True` loop (main.py:235-237) is modelled as finitely many
  turns, one per supplied page. `random.randrange(-10, 10)` is modelled as
  a supplied draw in that range. `time.sleep` is modelled as the list of
  sleep durations.
- `tests/main_test.py` is left out. It tests a multi-site configuration
  with memo patterns that this `main.py` does not define.
- A memo-substring matching rule does not exist in this `main.py`, so
  nothing models it.
- Values under `id` and `pw` are modelled as strings. The code only hands
  them to the browser, which is left out.
- A blocked name that is a YAML list or mapping is not modelled. It is
  unhashable, so `set.update([author_name])` raises `TypeError`
  (main.py:37).
- A numeric blocked name such as `12345` is not modelled. YAML loads it as
  an int, which never equals a span's string `title` (main.py:176). The
  model's names are strings, so the string `"12345"` would match.
- A scalar `blocked_author_names: foo` is not modelled. The loop at
  main.py:246 iterates the string, so the blocked set becomes its
  characters.
- A `users` entry that is not a mapping is not modelled. A null entry makes
  `'id' not in user` raise `TypeError` (main.py:272). A string entry turns
  that test into a substring test, so `users: ["idpw"]` passes validation,
  and then `['id']` on a string raises `TypeError` (main.py:244).
- A key present with a null value is not modelled. The configuration
  dictionary only knows "absent" and "present". A YAML `users:` with
  nothing under it makes `len(None)` raise `TypeError` (main.py:269), and
  the model cannot state that crash.
- In the same way, a null `blocked_author_names` makes the loop at
  main.py:246 raise `TypeError`. The model has no such case.
- An empty YAML file makes `read_user_config` return `None`. The membership
  test at main.py:266 then raises `TypeError`. The model has no such case.
- `_get_page_dump` catches only `ConnectionError` (main.py:101). Any other
  `requests` exception ends the process. The model's `Option<Page>` only
  offers "a page" or "nothing this cycle".
