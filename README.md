# Traefik routers to external-dns records, modelled in Dafny

The agent in `src/app.py` reads the HTTP routers a Traefik proxy serves, takes
every host name named by a `Host(...)` or `HostRegexp(...)` matcher in a
router's rule, keeps the hosts the domain filter admits, and turns each one into
a CNAME record pointing at the proxy's own host name. A background loop
compares that dictionary with the one loaded from the cache file at start-up.
When they differ, it posts the difference (create, update-old, update-new,
delete) to an external-dns webhook, retrying with exponential backoff, and then
writes the new dictionary to the cache file.

The model follows that code part by part, one module each:

- `Text`: the search for the next occurrence of a character, which both `Glob` and `HostRules` use.
- `Settings`: the configuration and the comma-separated domain lists, which are split, stripped and emptied of blanks.
- `Glob`: `fnmatch.fnmatch`, with the pattern read the way `fnmatch.translate` reads it.
- `DomainFilter`: `allowed_domain`.
- `Ttl`: `resolve_ttl`, with the `int()` it relies on.
- `HostRules`: the host regular expression under `re.findall`. It is a left-to-right scan that never overlaps its own matches.
- `EndpointBuilder`: records, the ordered host-to-record dictionary and `build_endpoints`. The method uses the two nested loops of the source.
- `Differ`: `diff_endpoints`. The method makes the two passes of the source.
- `Publisher`: the retry loop of `push_to_unifi`. The webhook is a sequence of outcomes, and the sleeps are a list of waits.
- `Reconciler`: `refresh_loop`.
  - `Cycle` and `Run` are the specification functions.
  - The class `SyncAgent` holds the loop's variables and runs iterations against `Cycle`.
  - `CycleFixed` is the loop with the baseline updated only after a delivered push (see Findings).

Inputs and outputs become values:

- The configuration is a `Config` parameter.
- The router fetch is a `RouterSource`: the router list, or `Unreachable` for any failure while building.
- The webhook's answers are a `seq<bool>`.
- Whether the cache file can be written is a `bool`.
- The cache file's content is an `Option` of a dictionary.

Python dictionaries keep insertion order. They are therefore modelled as `Endpoints(names, records)`: the keys in insertion order plus the map. The diff lists follow that order.

In three places the model keeps behaviour a reader might not expect:

- `resolve_ttl` takes zero and negative integers, not only positive ones (`Ttl.ResolveTtlOfInteger`).
- The cache file is written after a push that exhausted its retries (`Reconciler.ExhaustedPushStillSaves`).
- The in-memory baseline is never updated after a push (`Reconciler.Cycle`, `Reconciler.Run`).

`MAX_RETRIES` and `BACKOFF_FACTOR` are read from the environment as strings (`src/app.py:16-17`). As written, `MAX_RETRIES + 1` at line 90 raises `TypeError`. That exception is caught by the loop, so every change would be neither posted nor saved. The model takes both settings as integers, as if they had been converted with `int()` the way `REFRESH_INTERVAL` is.

## Model

| member | source | states |
|---|---|---|
| `Settings.Split` | src/app.py:13-14 | `str.split`: at least one piece, no piece holds the separator, and joining the pieces with it gives the input back |
| `Settings.SplitJoin` | src/app.py:13-14 | splitting a join of separator-free pieces gives the pieces back |
| `Settings.StripRemovesSurroundingSpace` | src/app.py:13-14 | `strip` keeps a contiguous stretch that neither starts nor ends with whitespace, and everything cut away around it is whitespace |
| `Settings.StripKeepsStripped` | src/app.py:13-14 | a string without whitespace at either end is left as it is |
| `Settings.NonBlank` | src/app.py:13-14 | the kept entries are non-empty, stripped and comma-free, and there are no more of them than pieces |
| `Settings.ParseList` | src/app.py:13-14 | every parsed domain is non-empty, has no surrounding whitespace and holds no comma |
| `Settings.NonBlankKeepsEntries` | src/app.py:13-14 | pieces that are already stripped and non-empty all survive, in order |
| `Settings.ParseListOfJoin` | src/app.py:13-14 | parsing a comma-joined list of clean domains gives exactly that list, and the unset (empty) value gives no domains |
| `Settings.BlankPiecesDropped` | src/app.py:13-14 | pieces made only of whitespace all disappear |
| `Settings.StripPadded` | src/app.py:13-14 | a word without whitespace at either end, padded with whitespace on both sides, strips back to the word |
| `Settings.NonBlankOfPadded` | src/app.py:13-14 | when every piece strips to a non-empty domain, the kept entries are exactly those domains, in order |
| `Settings.ParseListOfPaddedJoin` | src/app.py:13-14 | a comma-joined list of domains each surrounded by whitespace, as in `a.com, b.com`, parses to exactly those domains, in order |
| `Settings.Strip` | src/app.py:13-14 | `str.strip`; no contract of its own, characterised by `StripRemovesSurroundingSpace`, `StripKeepsStripped` and `StripPadded` |
| `Settings.Join` | src/app.py:13-14 | `sep.join`; the agent does not call it, it is the inverse through which `Split` and `SplitJoin` state what splitting gives; no contract of its own |
| `Glob.PlainPatternMatchesItself` | src/app.py:25-28 | a pattern without `*`, `?` or `[` matches exactly the name equal to it |
| `Glob.StarThenTokens` | src/app.py:25-28 | a leading `*` matches exactly when the rest of the pattern matches some suffix of the name |
| `Glob.StarMatchesEverything` | src/app.py:25-28 | `*` matches every name |
| `Glob.StarSuffixMatchesEndings` | src/app.py:25-28 | `*` plus a plain suffix (`*.example.com`) matches exactly the names ending in that suffix |
| `Glob.NegatedClassComplements` | src/app.py:25-28 | on one character, `[!body]` matches exactly when `[body]` does not |
| `Glob.QuestionMarkMatchesOneChar` | src/app.py:25-28 | `?` followed by a plain pattern matches exactly the names one character longer whose rest is that pattern |
| `Glob.ClassMatchesItsMembers` | src/app.py:25-28 | a class of plain characters matches a one-character name exactly when the character is in the class; `[]` is no class and matches no single character |
| `Glob.RangeMatchesBetweenBounds` | src/app.py:25-28 | `[lo-hi]` matches a character exactly when it lies between the bounds, so a reversed range matches nothing |
| `Glob.LeadingBracketBelongsToClass` | src/app.py:25-28 | a `]` right after `[` is a member of the class, not its end |
| `Glob.Compile` | src/app.py:25-28 | the tokens `fnmatch.translate` reads from a pattern; no contract of its own, its meaning is stated through `FnMatch` by the `Glob` lemmas |
| `Glob.FnMatch` | src/app.py:25-28 | `fnmatch.fnmatch`; no contract of its own, characterised by `PlainPatternMatchesItself`, `StarMatchesEverything`, `StarSuffixMatchesEndings`, `QuestionMarkMatchesOneChar`, `ClassMatchesItsMembers`, `RangeMatchesBetweenBounds`, `LeadingBracketBelongsToClass` and `NegatedClassComplements` |
| `DomainFilter.AnyMatch` | src/app.py:25 | true exactly when some pattern of the list matches the host |
| `DomainFilter.AllowedDomain` | src/app.py:24-29 | admitted iff no ignored pattern matches and either the allow list is empty or one of its patterns matches |
| `DomainFilter.IgnoredBeatsAllowed` | src/app.py:24-29 | a host matching an ignored pattern is rejected even when an allowed pattern matches it too |
| `DomainFilter.EmptyAllowListAdmitsUnignored` | src/app.py:27-29 | with no allowed patterns every host no ignored pattern matches is admitted |
| `DomainFilter.Admits` | src/app.py:24-29 | `allowed_domain` with the two lists parsed from the configuration; no contract of its own, it is `AllowedDomain` over `ParseList` of each setting |
| `DomainFilter.SuffixAllowList` | src/app.py:24-29 | `ALLOWED_DOMAINS=*.example.com` with nothing ignored admits exactly the hosts ending in `.example.com` |
| `Ttl.Lower` | src/app.py:32 | same length, every character lower-cased on its own |
| `Ttl.ParseInt` | src/app.py:35 | `int()` on the strings the model reads (see Left out): it succeeds exactly on an optional sign followed by one or more ASCII digits |
| `Ttl.ParseIntOfPrinted` | src/app.py:35 | parsing the decimal form of any integer gives that integer back |
| `Ttl.AutoInAnyCase` | src/app.py:32-33 | `auto` in any mixture of letter cases gives no TTL |
| `Ttl.ResolveTtlOfInteger` | src/app.py:34-35 | every integer written the way `str(n)` prints it (`IntToString`: a `-` for negatives, no `+`, no leading zeros) is taken as it is, zero and negative values included |
| `Ttl.ResolveTtlOfNumeral` | src/app.py:34-35 | any numeral the model's `int()` accepts, `0300` and `+300` included, gives the integer it spells and never the fallback |
| `Ttl.ResolveTtlFallback` | src/app.py:36-38 | a value that is neither `auto` nor an integer gives 300 |
| `Ttl.ResolveTtlNoneIffAuto` | src/app.py:31-38 | the record carries no TTL exactly when the setting is the four letters of `auto` in some mixture of cases; every other setting gives a TTL |
| `Ttl.ResolveTtl` | src/app.py:31-38 | `resolve_ttl`; no contract of its own, characterised by `AutoInAnyCase`, `ResolveTtlOfInteger`, `ResolveTtlOfNumeral`, `ResolveTtlFallback` and `ResolveTtlNoneIffAuto` |
| `HostRules.MatchIsUnique` | src/app.py:48 | at one position the host's start is fixed by which opening is present, and its end is the first backtick after it |
| `HostRules.MatchAt` | src/app.py:48 | an occurrence it reports starts at the given position and satisfies the pattern |
| `HostRules.MatchAtFindsEveryOccurrence` | src/app.py:48 | whenever the pattern matches at a position, it reports exactly that occurrence |
| `HostRules.ScanFrom` | src/app.py:48 | every occurrence found lies at or after the starting point and inside the rule |
| `HostRules.Texts` | src/app.py:48 | one host per occurrence, the text between its backticks |
| `HostRules.ScanFindsOccurrences` | src/app.py:48 | every occurrence the scan lists is the pattern's match at its own start |
| `HostRules.ScanDoesNotOverlap` | src/app.py:48 | each listed occurrence starts after the previous one's closing `)` |
| `HostRules.ScanMissesNothing` | src/app.py:48 | every position where the pattern could match is a listed start or lies inside a listed occurrence |
| `HostRules.ScanFindsLeftmostOccurrences` | src/app.py:48 | `findall` is a left-to-right scan for real, non-overlapping occurrences that skips only positions inside earlier matches |
| `HostRules.FindHosts` | src/app.py:48 | `re.findall` with the host pattern; no contract of its own, characterised by `ScanFindsLeftmostOccurrences`, `HostsComeFromOccurrences` and `NoOccurrenceNoHosts` |
| `HostRules.HostsComeFromOccurrences` | src/app.py:48 | every extracted host is exactly the text between the backticks of a `Host(...)` or `HostRegexp(...)` occurrence and holds no backtick |
| `HostRules.NoOccurrenceNoHosts` | src/app.py:48 | a rule in which the pattern matches nowhere yields no hosts, without error |
| `EndpointBuilder.Put` | src/app.py:63 | `d[host] = record` keeps the keys distinct and maps `host` to the new record, every other key unchanged; insertion order is kept: the old keys stay in place, a new key goes to the end, and an existing key adds no entry |
| `EndpointBuilder.AddHosts` | src/app.py:49-63 | the inner loop keeps the dictionary well formed |
| `EndpointBuilder.AddRouters` | src/app.py:46-63 | the outer loop keeps the dictionary well formed |
| `EndpointBuilder.BuildEndpoints` | src/app.py:40-64 | a failed fetch is an error; a fetched list gives the dictionary of the two nested loops |
| `EndpointBuilder.AddHostShapeAndKeys` | src/app.py:50-63 | one host is stored exactly when it is admitted and has a dot, as a CNAME to the proxy under its own name |
| `EndpointBuilder.AddHostsShapeAndKeys` | src/app.py:49-63 | after a router's hosts the keys are the old ones plus its admitted dotted hosts, every record well shaped |
| `EndpointBuilder.AddRoutersShapeAndKeys` | src/app.py:46-63 | after all routers the keys are exactly the mentioned, dotted, admitted hosts |
| `EndpointBuilder.EndpointsForRecords` | src/app.py:44-63 | every record sits under its own `dnsName`, has a dot, passes the filter, is a CNAME whose only target is the proxy's host name, and carries the resolved TTL (absent exactly for `auto`); no host appears twice |
| `EndpointBuilder.EndpointsForKeys` | src/app.py:46-63 | a host gets a record iff some router's rule names it, it has a dot, and the filter admits it |
| `EndpointBuilder.AddHostsAgainIsIdle` | src/app.py:49-63 | hosts already present are rewritten with equal records, so the dictionary does not change |
| `EndpointBuilder.RepeatedRouterChangesNothing` | src/app.py:46-63 | appending a router that already appears in the list leaves the dictionary unchanged: its hosts collapse onto the entries already there |
| `EndpointBuilder.AddHost` | src/app.py:50-63 | one pass of the inner loop's body; no contract of its own, characterised by `AddHostShapeAndKeys` |
| `EndpointBuilder.EndpointsFor` | src/app.py:44-63 | the dictionary of the two nested loops; no contract of its own, characterised by `EndpointsForRecords`, `EndpointsForKeys` and `RepeatedRouterChangesNothing` |
| `Differ.MissingMembers` | src/app.py:68-70 | a key is listed iff it is in the scanned dictionary and not in the other |
| `Differ.ChangedMembers` | src/app.py:71-73 | a key is listed iff both dictionaries hold it with different records |
| `Differ.ValuesAt` | src/app.py:68-76 | the listed records are those of the listed keys, position by position |
| `Differ.ScanNewStep` | src/app.py:68-73 | each key of the new dictionary extends create, or both update lists, or nothing |
| `Differ.ScanNew` | src/app.py:68-73 | the first loop builds create, update-old and update-new |
| `Differ.ScanOld` | src/app.py:74-76 | the second loop builds delete |
| `Differ.DiffEndpoints` | src/app.py:66-77 | returns the four lists `Diff` describes |
| `Differ.DiffOfSameIsEmpty` | src/app.py:66-77 | comparing a dictionary with itself gives four empty lists |
| `Differ.DiffCreatesNewKeys` | src/app.py:68-70 | create holds exactly the records of keys only in the new dictionary |
| `Differ.DiffDeletesDroppedKeys` | src/app.py:74-76 | delete holds exactly the records of keys only in the old dictionary |
| `Differ.DiffUpdatesArePairs` | src/app.py:71-73 | update-old and update-new have equal length, and their i-th entries are the old and new record of one key both dictionaries hold, which differ; so keys with equal records give no pair |
| `Differ.DiffUpdatesEveryChangedKey` | src/app.py:71-73 | every key both dictionaries hold with different records gives an update pair of its old and new record |
| `Differ.Diff` | src/app.py:66-77 | the four lists of `diff_endpoints`; no contract of its own, characterised by `DiffOfSameIsEmpty`, `DiffCreatesNewKeys`, `DiffDeletesDroppedKeys`, `DiffUpdatesArePairs`, `DiffUpdatesEveryChangedKey` and `HasChangesIffRecordsDiffer` |
| `Differ.UpdateListsEmptyTogether` | src/app.py:131 | leaving update-new out of the change test loses nothing: it is empty exactly when update-old is |
| `Differ.HasChangesIffRecordsDiffer` | src/app.py:130-131 | `c or uo or d` holds exactly when the two dictionaries hold different records |
| `Publisher.PushToWebhook` | src/app.py:80-103 | the loop's outcome, post count and waits are those of `Push`, and every post carries the same payload |
| `Publisher.Attempts` | src/app.py:90-102 | the attempts from a given one on; no contract of its own, characterised by `AttemptsOutcome` and `AttemptsWaits` |
| `Publisher.Push` | src/app.py:90-103 | the whole retry loop; no contract of its own, characterised by the `Push...` lemmas below and by `NonNegativeFactorNeverRaises` |
| `Publisher.PowNonNegative` | src/app.py:100 | a non-negative factor never gives a negative wait |
| `Publisher.AttemptsOutcome` | src/app.py:90-103 | from any attempt on: post counts bounded by the attempt limit, a delivery ends on an accepted post, every earlier post failed |
| `Publisher.AttemptsWaits` | src/app.py:99-102 | from any attempt on: one wait per failed post, the wait after attempt k being factor^(k-1) |
| `Publisher.PushPostsBounded` | src/app.py:90 | at most `MAX_RETRIES` posts, and none exactly when `MAX_RETRIES` is below 1 |
| `Publisher.PushStopsAtFirstSuccess` | src/app.py:90-98 | a delivered push ended on its first accepted post; an undelivered one saw every post fail |
| `Publisher.PushWaitsGrowGeometrically` | src/app.py:99-102 | the i-th wait is factor^i, and a wait follows every failed post, the last one included |
| `Publisher.NonNegativeFactorNeverRaises` | src/app.py:100-102 | with a factor of zero or more, the push never ends in an error |
| `Publisher.PushDeliversAtFirstSuccess` | src/app.py:90-98 | when attempt k is the first accepted one, the push is delivered after exactly k posts |
| `Publisher.PushExhaustsWhenAllFail` | src/app.py:90-103 | when every attempt fails, all of them are posted, each is followed by a wait, and the function returns normally |
| `Publisher.DefaultBackoffSchedule` | src/app.py:90-103 | 5 attempts with factor 2 against a webhook that never accepts: 5 posts and waits of 1, 2, 4, 8 and 16 seconds |
| `Publisher.NegativeFactorRaisesAfterSecondFailure` | src/app.py:100-102 | a negative factor makes the second wait negative, so `time.sleep` raises after two posts and one sleep |
| `Reconciler.Cycle` | src/app.py:127-138 | one iteration leaves the baseline as it was |
| `Reconciler.Run` | src/app.py:126-138 | after any number of iterations the baseline is still what was loaded |
| `Reconciler.LoadCache` | src/app.py:105-112 | `load_cache()`; no contract of its own; the constructor's contract states the baseline it gives |
| `Reconciler.Sync` | src/app.py:129-135 | the body of the `try`; no contract of its own, characterised by `PushAndSaveOnlyOnChange`, `QuietCycleOnlySleeps`, `ChangeIsPosted`, `DeliveredPushSaves`, `ExhaustedPushStillSaves` and `RaisingSleepSkipsSave` |
| `Reconciler.Restart` | src/app.py:126 | the agent started again from its cache file; no contract of its own, used by `RestartForgetsFailedPush` and `FixedCycleKeepsUndeliveredChange` |
| `Reconciler.CycleFixed` | src/app.py:127-138 | the iteration with the baseline updated only after a delivered push; it keeps the baseline well formed, and `FixedCycleSettles` and `FixedCycleKeepsUndeliveredChange` state what it is for |
| `Reconciler.SyncAgent.constructor` | src/app.py:126 | the baseline is the cache file's dictionary, or the empty one without a file |
| `Reconciler.SyncAgent.RefreshOnce` | src/app.py:128-138 | one iteration changes the loop's state exactly as `Cycle` does |
| `Reconciler.SyncAgent.RefreshLoop` | src/app.py:127-138 | a sequence of iterations changes the state exactly as `Run` does |
| `Reconciler.PushAndSaveOnlyOnChange` | src/app.py:129-135 | posting or writing the cache file happens only when the fetch worked and the endpoints differ from the baseline, and the file then holds the new endpoints |
| `Reconciler.QuietCycleOnlySleeps` | src/app.py:131-138 | when the endpoints match the baseline, the iteration only sleeps the refresh interval |
| `Reconciler.ChangeIsPosted` | src/app.py:131-138 | when the endpoints differ and attempts are allowed, the difference is posted at least once and only it; the cycle sleeps the push's backoff waits and then the refresh interval |
| `Reconciler.DeliveredPushSaves` | src/app.py:131-133 | after a delivered push, a successful write leaves the new endpoints in the cache file |
| `Reconciler.RaisingSleepSkipsSave` | src/app.py:128-135 | a backoff sleep that raises leaves the `try` before `save_cache`, so the cache file is untouched |
| `Reconciler.ExhaustedPushStillSaves` | src/app.py:132-133 | the cache file receives the new endpoints even when every push attempt failed |
| `Reconciler.RestartForgetsFailedPush` | src/app.py:126-133 | after a failed push and a restart, the same routers show no difference, so the change is never posted |
| `Reconciler.RepeatedChangeIsRepushed` | src/app.py:126-133 | with the baseline never updated, an accepted difference is posted again on the next iteration |
| `Reconciler.FixedCycleSettles` | src/app.py:127-138 | intended: after a delivered push, the next iteration over the same routers posts nothing |
| `Reconciler.FixedCycleKeepsUndeliveredChange` | src/app.py:127-138 | intended: an undelivered push leaves baseline and cache file as they were, so the change is found again after a restart |

## Left out

- The Flask routes `/records` and `/healthz`, the start-up DNS check with `sys.exit`, the daemon thread and `waitress`. They are HTTP, process and concurrency plumbing around the modelled functions.
- `requests.get` and `requests.post`, with their timeouts and status checks. These are network calls. They are replaced by the `RouterSource` value and the sequence of webhook outcomes. A webhook answer missing from that sequence counts as a failed attempt.
- The contents of the webhook payload's HTTP headers. They are constant and play no part in the logic.
- Reading and writing the cache file as JSON. The file is an `Option` of a dictionary:
  - a missing or unreadable file loads as the empty dictionary;
  - a failed write leaves the file as it was. In Python, `open(..., "w")` has already emptied the file when `json.dump` fails, so the file is then empty or partial and a restart loads `{}`;
  - a cache file whose JSON is not an object of records is not modelled.
- Logging calls and reading `os.getenv`. The configuration is a parameter.
- `time.sleep` does not wait. Each wait is appended to a list, and a negative wait is the error it raises.
- `Publisher.NonNegativeFactorNeverRaises`: `time.sleep` also raises `OverflowError` for a wait beyond about 9,223,372,036 seconds (say `BACKOFF_FACTOR=10**10`). The model records such a wait as slept, so the lemma says nothing about those huge factors.
- The endless `while True`. `Reconciler.SyncAgent.RefreshLoop` runs a finite sequence of iterations.
- Routers that are not objects, rules that are not strings, and a router answer that is not a JSON list. A non-empty object, a non-empty string or a number makes `build_endpoints` raise; these are folded into `RouterSource.Unreachable`, which the loop handles the same way. An empty object or empty string is iterated zero times and gives `{}`; it is the same as `Fetched([])`, which the model does cover.
- `os.path.normcase` inside `fnmatch.fnmatch`. Matching is case-sensitive, as on POSIX.
- `Glob.Compile`: backslashes and the characters `fnmatch.translate` escapes are taken literally, as the generated regular expression treats them. The regular-expression cache is left out.
- `Ttl.ParseInt` accepts only an optional sign followed by ASCII digits. `int()` also accepts surrounding whitespace, `_` between digits and non-ASCII decimal digits. For such a `DEFAULT_TTL` the model gives 300 where Python gives the number. `int()` also rejects numerals longer than 4300 digits (the default `sys.set_int_max_str_digits` limit); the model accepts them, where Python falls back to 300.
- `Ttl.Lower` lowers ASCII letters only. No other character lower-cases to a letter of `auto`, so `resolve_ttl`'s result is the same.
- The retry settings: `MAX_RETRIES` and `BACKOFF_FACTOR` are integers here. As written they are strings, and `MAX_RETRIES + 1` raises `TypeError`, so the loop would log a sync failure in every changing cycle.
- `Reconciler.SyncAgent`: the class follows the code as written (`Cycle`). The corrected iteration `CycleFixed` is stated and proved as a function alongside it.

## Findings

| source | as written | input that shows it | evidently intended | confidence | as-written member | corrected member |
|---|---|---|---|---|---|---|
| src/app.py:126-133 | `last_endpoints` is loaded once and never reassigned, so the baseline stays the start-up snapshot | an empty cache file, one router ``Host(`a.example.com`)``, a webhook that accepts every post: the second and every later iteration post the same Create again | after a delivered push the new endpoints become the baseline, so an unchanged router list posts nothing | not executed | `Reconciler.RepeatedChangeIsRepushed` | `Reconciler.FixedCycleSettles` |
| src/app.py:132-133 | `save_cache(new_endpoints)` runs even when every push attempt failed | a change, a webhook that rejects all 5 attempts, then a restart: the cache file already holds the new endpoints, so the change is never posted | persist only after a delivered push, so the old state stays authoritative and the difference is retried | not executed | `Reconciler.RestartForgetsFailedPush` | `Reconciler.FixedCycleKeepsUndeliveredChange` |
