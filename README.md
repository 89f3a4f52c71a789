# PixSense organiser core, modelled in Dafny

PixSense sorts downloaded Pixiv images into folders. For each image file it
does four things:

1. It extracts the illustration ID from the file name, using a configurable
   filename rule.
2. It fetches the illustration's metadata from the Pixiv web API, with a
   retry and back-off policy.
3. It builds a table of template variables from that metadata, including
   tag summaries.
4. It renders the configured folder template and joins the target path.

This project models that logic of the `PixivImageOrganizer` class in
`main.py` and proves properties of the model. It covers:

- the path-segment sanitizer;
- the tag normaliser and the three tag-summary joins;
- the retry delay, the HTTP status and response classifiers, and the
  final-failure status text;
- the `getInfo` fetch loop, as a state machine over `retries` and
  `last_status`;
- `buildPath`: the explicit variables, the recursive flattening of the
  metadata, the fill of missing placeholders, plain `{name}` rendering with
  Python `str.format` error behaviour, and the primary and fallback paths;
- the record `process_file` hands to `buildPath`;
- `extractId`: pattern construction from the filename rule, and a
  backtracking matcher for the regular-expression fragment those patterns
  fall into.

Modules, one per file:

- `Wrappers`: `Option` and `Result`.
- `Text`: Python string operations over `seq<char>`.
- `Json`: parsed metadata, and the built-ins applied to it.
- `Config`: the configuration record, with its defaults.
- `Sanitizer`.
- `Tags`.
- `RetryPolicy`.
- `Fetcher`.
- `Variables`: flattening, and the missing-placeholder fill.
- `Format`: `str.format`.
- `PathBuilder`: `buildPath` and `process_file`'s record.
- `IdExtractor`.

Four parts change state step by step, and each is a method with a loop. Each
method is proved equal to a specification function. The properties are then
proved about those functions:

- `Sanitizer.Sanitize`
- `Tags.ProcessTagsData`
- `Fetcher.GetInfo`
- `Variables.AddNestedFields` and `Variables.FillMissing`, which are called
  by `PathBuilder.BuildPath`.

Library calls whose output text is not specified here are fields of an `Env`
record passed in as a parameter:

- `json.dumps`;
- the `repr` of containers;
- `strptime`/`strftime`.

Where the code's behaviour is surprising, the model follows it as written:

- Flattening checks the leaf key rather than the full key. A nested entry can
  therefore overwrite an explicit underscore key such as `tags_str`
  (`Variables.NestedEntryOverwritesExplicitKey`). Underscore-free keys are
  never overwritten.
- An unparsable `createDate` raises from `strptime`; it does not give an
  empty date.
- The sanitized folder path is discarded, so only `title` and `user` are
  sanitized (`PathBuilder.FolderIsNotSanitized`).
- The backoff flag, `retry_on_429` and `retry_on_timeout` are never read.
- A 429 does not count as a retry.
- The custom-regex fallback of `extractId` is never reached.

## Model

| member | source | states |
|---|---|---|
| Text.StripIsTrimmedSlice | main.py:782 | `strip` gives the slice that starts at the first non-blank character and ends after the last one |
| Text.StripIdempotent | main.py:782 | stripping twice is stripping once |
| Text.DigitRun | main.py:533-534 | the length of the maximal run of decimal digits at a position: all digits, and followed by a non-digit or the end |
| Text.ParseNatToString | main.py:686 | `str(n)` of a natural number reads back as `n` |
| Text.NatToStringInjective | main.py:686 | different counts give different `str` texts |
| Config.DefaultLevelSkipsOnlyDebug | main.py:396-398 | under the default level `INFO`, an entry is written to the log file exactly when it is not DEBUG |
| Config.WrittenToFileUpward | main.py:397-398 | once a level is written, every higher level is written too |
| Json.Lookup | main.py:752 | `dict.get` finds a value exactly when an entry has that key, and the value found is stored under the key |
| Sanitizer.Scrub | main.py:779-781 | every character of the set becomes `_`, every other character is kept, and the length is unchanged |
| Sanitizer.ReplaceCharIsScrub | main.py:781 | one `str.replace(c, "_")` replaces exactly the occurrences of `c` |
| Sanitizer.Sanitize | main.py:776-782 | the replace loop followed by `strip` computes `Sanitized` |
| Sanitizer.SanitizedIsClean | main.py:776-782 | none of `\ / : * ? " < > \|` remains, and there is no whitespace at either end |
| Sanitizer.SanitizeIdempotent | main.py:776-782 | sanitizing a sanitized segment changes nothing |
| Sanitizer.ScrubExample | main.py:779-781 | `"  A/B:C*D "` has its three illegal characters replaced, with the blanks kept |
| Sanitizer.TrimLeftExample | main.py:782 | the leading blanks of the example are removed |
| Sanitizer.TrimRightExample | main.py:782 | the trailing blank of the example is removed |
| Sanitizer.SanitizeExample | main.py:776-782 | `"  A/B:C*D "` sanitizes to `"A_B_C_D"` |
| Tags.ProcessedTags | main.py:747-764 | the list `process_tags_data` returns; `Tags.ProcessedTagsCases` and `Tags.NormalizeAllMembers` state its cases and members |
| Tags.Normalize | main.py:759-763 | a tag entry's label is `str` of its `tag` (the string itself, an integer's decimal text, `True`/`False`, `None`; `""` when absent), and its `translation` is passed through unchanged (`{}` when absent) |
| Tags.ProcessTagsData | main.py:747-764 | the append loop returns `ProcessedTags` |
| Tags.NormalizeAllConcat | main.py:758-763 | normalising a concatenation is concatenating the normalised parts, so order is kept |
| Tags.NormalizeAllSingle | main.py:758-763 | a single entry survives exactly when it is a mapping |
| Tags.NormalizeAllMembers | main.py:758-763 | a tag is in the result if and only if it is the normalisation of some mapping-typed entry |
| Tags.ProcessedTagsCases | main.py:749-764 | `[]` for a non-mapping input, for a missing `tags`, and for a non-list `tags`; otherwise the normalised mapping entries of the list |
| Tags.Collect | main.py:691-701 | a generator over the tags succeeds if and only if every element does; it yields each element's value in order, and an error is the error of some element |
| Tags.JoinStrs | main.py:698-701 | `sep.join` fails with `TypeError` if and only if some value is not a string, and otherwise joins the strings in order |
| Tags.Labels | main.py:691 | one label per tag, in order |
| Tags.TagsStr | main.py:691 | `tags_str`, the separator-joined labels; `Tags.Labels` states one label per tag, in order |
| Tags.TagsTransl | main.py:692-697 | `tags_transl`, raising when a translation is not a mapping; `Tags.TagsTranslMeaning` and `Tags.NonMappingTranslationRaises` state its result |
| Tags.TagsTranslOnly | main.py:698-701 | `tags_transl_only`, raising on a non-string value; `Tags.TagsTranslOnlyMeaning` and `Tags.JoinStrs` state its result |
| Tags.TagsTranslMeaning | main.py:692-697 | on well-typed tags, `tags_transl` joins `label(en)` when `en` is non-empty and `label` otherwise |
| Tags.TagsTranslOnlyMeaning | main.py:698-701 | on well-typed tags, `tags_transl_only` joins `en`, or `label` when `en` is empty |
| Tags.TruthyTranslationsMeaning | main.py:770-774 | on well-typed tags, the filtered generator yields exactly the non-empty translations, in order |
| Tags.TranslatedTagsOnly | main.py:766-774 | what `get_translated_tags_only` returns; `Tags.TranslatedTagsOnlyMeaning` states it |
| Tags.TranslatedTagsOnlyMeaning | main.py:766-774 | `get_translated_tags_only` joins exactly the non-empty English translations of the processed tags |
| Tags.NonMappingTranslationRaises | main.py:693-701 | a tag whose translation is not a mapping makes both translated joins raise `AttributeError` |
| RetryPolicy.Pow2 | main.py:620 | a power of two is at least 1 |
| RetryPolicy.BackoffDelay | main.py:619-622 | `min(base * 2^(retries-1), max)`; `RetryPolicy.BackoffMonotone`, `RetryPolicy.BackoffReachesCap` and `RetryPolicy.DefaultBackoffSchedule` state its behaviour |
| RetryPolicy.CalculateRetryDelay | main.py:617-626 | without jitter the delay is `min(base * 2^(n-1), max)`; with jitter it lies between that and one more; it never exceeds `max + 1`, and below the cap it is at least the exponential term |
| RetryPolicy.BackoffFlagIgnored | main.py:617-626 | the delay does not depend on `enable_exponential_backoff` |
| RetryPolicy.Pow2Monotone | main.py:620 | powers of two grow with the exponent |
| RetryPolicy.Pow2Exceeds | main.py:620 | `2^n > n` |
| RetryPolicy.BackoffMonotone | main.py:619-622 | with a non-negative base, the delay never decreases as `retries` grows |
| RetryPolicy.BackoffReachesCap | main.py:619-622 | with a positive base, the delay equals `max_retry_delay` once `retries - 1` reaches it |
| RetryPolicy.DefaultBackoffSchedule | main.py:619-622 | with the default configuration the delays are 3, 6, 12, 24 and 48 seconds, then always the 60-second cap |
| RetryPolicy.HandleHttpError | main.py:638-643 | a status of 500 or more is logged as a server error at ERROR, and any other as a client error at WARNING |
| RetryPolicy.HttpErrorsReachDefaultLog | main.py:397-398 | under the default log level `INFO`, every `handle_http_error` entry and every ERROR entry is written to the log file |
| RetryPolicy.ValidateResponseData | main.py:645-658 | data is accepted exactly when the body parsed, is a mapping, and has no truthy `error`; accepted data is the parsed mapping |
| RetryPolicy.StatusTextMeaning | main.py:660-666 | a positive last status is printed as decimal digits that read back as the status; a missing or zero status prints the no-response text |
| RetryPolicy.StatusText | main.py:662 | the printed status, or the no-response text; `RetryPolicy.StatusTextMeaning` states both cases |
| RetryPolicy.FinalFailureMessage | main.py:660-666 | the final-failure message; `RetryPolicy.FinalFailureNamesWorkAndStatus` states its parts |
| RetryPolicy.FinalFailureNamesWorkAndStatus | main.py:660-666 | the message starts with its fixed prefix, names the work right after it, and ends with the status text and `)` |
| RetryPolicy.FinalFailureIdentifiesStatus | main.py:660-666 | for one work, messages with two positive statuses are equal only when the statuses are |
| Fetcher.React | main.py:586-611 | the loop body for one outcome; `Fetcher.ReactCounts`, `Fetcher.ForbiddenOrMissingStops` and `Fetcher.ValidResponseReturnsBody` state its cases |
| Fetcher.ReactCounts | main.py:586-611 | after one outcome, `retries` rises by exactly one for a counted failure (exception, rejected body, or a non-200 other than 403, 404 and 429) and is unchanged otherwise; a stopping outcome is never a counted failure |
| Fetcher.Run | main.py:573-615 | the loop never consumes more outcomes than are available |
| Fetcher.RunContinues | main.py:573-611 | a continuing step emits its back-off sleep (when `retries > 0`), the request, and any 429 wait, and then runs on from the next state |
| Fetcher.PrependTwice | main.py:573-611 | events emitted in two steps concatenate in order |
| Fetcher.GetInfo | main.py:556-615 | the loop with mutable `retries`, `last_status` and event trace computes `GetInfoSpec` |
| Fetcher.CountRequestsConcat | main.py:581-585 | request counts add up over concatenated traces |
| Fetcher.RequestsMatchConsumed | main.py:573-611 | exactly one request is made per consumed outcome |
| Fetcher.RetryAccounting | main.py:573-611 | counted failures never take `retries` past `max_retries`, and the loop gives up exactly when they reach it |
| Fetcher.GetInfoRetryBound | main.py:556-615 | from a fresh start, counted failures are at most `max_retries`, and the fetch is exhausted exactly when they equal it |
| Fetcher.ForbiddenOrMissingStops | main.py:594-597 | a 403 or 404 ends the loop at once with no further request, and `None` is returned |
| Fetcher.ValidResponseReturnsBody | main.py:602-607 | a 200 with a mapping body and no truthy `error` returns `data["body"]` immediately |
| Fetcher.BackoffPrecedesRetry | main.py:576-585 | every attempt with `retries > 0` is preceded by a sleep of `calculate_retry_delay(retries)`; the first attempt is not |
| Fetcher.RateLimitsAreNotBounded | main.py:589-591 | any number of 429s, even beyond `max_retries`, followed by a good 200 still returns the body, after exactly one wait per 429 and no back-off sleep |
| Fetcher.RateLimitThenSuccess | main.py:589-607 | a 429 with `Retry-After: 5` and then a good 200 gives request, wait 5, request, and the body |
| Fetcher.NotFoundSingleAttempt | main.py:594-597 | a first 404 makes one request and stops |
| Fetcher.NoRetriesNoRequest | main.py:573 | with `max_retries <= 0`, no request is made and the fetch is exhausted with no status |
| Fetcher.RateLimitAfterFailureSleepsTwice | main.py:576-579 | after a 500, a 429 is followed by both its wait and a computed back-off sleep before the next request |
| Fetcher.NonNegativeDelaysNeverRaise | main.py:579 | with non-negative delays and waits, `time.sleep` never raises |
| Variables.AddNested | main.py:705-720 | `add_nested_fields` as written; `Variables.AddNestedIsApply` and `Variables.AddNestedEffect` state its effect |
| Variables.HeadSmaller | main.py:705-720 | the recursion over nested mappings terminates |
| Variables.AddNestedFields | main.py:705-720 | the recursive loop that writes into `variables` computes `AddNested` |
| Variables.ApplyConcat | main.py:706-720 | storing leaves in two batches is storing them all in order |
| Variables.AddNestedIsApply | main.py:705-720 | flattening is storing the leaves of the nested metadata, depth first and in order, each under its underscore-joined path |
| Variables.LeavesUnderPrefix | main.py:707-709 | no leaf is a mapping, and under a prefix every leaf's path begins with that prefix |
| Variables.StoredKeysUnderPrefix | main.py:707-709 | every key stored from a nested mapping begins with the mapping's path followed by `_` |
| Variables.ApplyEffect | main.py:710-720 | existing keys survive, and a key that is new or changed holds the text of a leaf stored under it whose own key was not yet present |
| Variables.ApplyKeeps | main.py:710 | a key keeps its value when every leaf stored under it has an own key already present |
| Variables.SplitOfFullKey | main.py:707 | a full key is the key itself or the prefix, `_`, and the key |
| Variables.KeptWhenEverySuffixKnown | main.py:705-720 | a present key keeps its value when every text after an `_` in it is also present |
| Variables.UnderscoreFreeKeysKept | main.py:705-720 | a present key without `_` is never overwritten |
| Variables.AddNestedEffect | main.py:705-720 | flattening only adds keys; every key added or changed comes from a non-mapping leaf whose own key was absent, and holds its text (scalars stringified, lists JSON-encoded, `None` as `""`) |
| Variables.NestedEntryOverwritesExplicitKey | main.py:710 | `{"tags": {"str": "x"}}` overwrites an explicit `tags_str`, because the skip test uses the leaf key |
| Variables.PlaceholderNames | main.py:723 | the names `re.findall(r"{(\w+)}", …)` finds; `Variables.PlaceholderNamesSpec` states exactly which |
| Variables.WordRun | main.py:723 | the maximal run of `\w` characters at a position |
| Variables.WordRunShift | main.py:723 | word runs are unchanged by dropping a leading character |
| Variables.PlaceholderShift | main.py:723 | placeholders and their names move with a dropped leading character |
| Variables.PlaceholderNamesSpec | main.py:723 | a name is found if and only if `{name}` occurs in the template with a non-empty `\w+` name |
| Variables.Filled | main.py:723-728 | after the fill, the keys are the old keys plus the required names, old values are kept, and each missing name maps to `""` |
| Variables.FilledStep | main.py:727-728 | filling one more missing name is one dictionary assignment |
| Variables.FilledMissingOnly | main.py:724-728 | filling only the missing names is filling all the required names |
| Variables.FillMissing | main.py:723-728 | the loop over the missing names computes `Filled` |
| Format.Render | main.py:733 | `str.format(**variables)`; `Format.RenderPlain`, `Format.FilledTemplateRenders` and the `…Fails` lemmas state its results and errors |
| Format.TagsJson | main.py:688 | one list element per tag |
| Format.CloseBrace | main.py:733 | the first `}` at or after a position, or none |
| Format.PrefixTwice | main.py:733 | rendered text accumulates left to right |
| Format.RenderEscaped | main.py:733 | doubled braces render as single braces |
| Format.RenderField | main.py:733 | a plain `{name}` of a present key renders as the variable's text |
| Format.RenderPlain | main.py:733 | a template of literal text and plain present names renders to the literal text with each name replaced by its value (`Expand`) |
| Format.FieldSplit | main.py:733 | a field `{n}` renders as the replacement of `n` followed by the rest |
| Format.UnknownNameFails | main.py:733 | an absent plain name raises `KeyError` |
| Format.PositionalFieldFails | main.py:733 | an all-digit or empty name raises `IndexError` (no positional arguments) |
| Format.SingleCloseBraceFails | main.py:733 | a lone `}` raises `ValueError` |
| Format.UnterminatedFieldFails | main.py:733 | a `{` with no closing `}` raises `ValueError` |
| Format.WordRunOver | main.py:723 | a run of `\w` ending at a non-word character has exactly that length |
| Format.PlaceholderNamesSuffix | main.py:723 | names found in a suffix are found in the whole template |
| Format.RefNamesArePlaceholders | main.py:723 | every `\w+` field of a template is among the names the fill looks for |
| Format.FilledTemplateRenders | main.py:723-733 | after the fill, a template whose fields are `\w+` names always renders, and never falls back |
| Format.PlainWordName | main.py:723-733 | a present, not all-digit `\w+` name is a plain field |
| Format.RenderExample | main.py:733 | `"/{title}"` with `title = "Sunset"` renders as `"/Sunset"` |
| PathBuilder.SanitizeValue | main.py:681-682 | a string value is sanitized, and any other value raises `AttributeError` |
| PathBuilder.DateText | main.py:684 | the date is `""` for a falsy `createDate`, `TypeError` for a truthy non-string, the reformatted date for a parsable one, and `ValueError` for an unparsable one |
| PathBuilder.Thousands | main.py:686 | `bmk_1000`; `PathBuilder.ThousandsIsFloorDivision` states it is floor division by 1000 |
| PathBuilder.ThousandsIsFloorDivision | main.py:686 | `bmk_1000` is `str(q)` with `q` the floor of `bookmarkCount / 1000`, negative counts included |
| PathBuilder.ExplicitTable | main.py:679-702 | the explicit map has exactly the thirteen explicit keys |
| PathBuilder.ExplicitTableIds | main.py:680-683 | `id` and `user_id` hold the computed ID texts |
| PathBuilder.ExplicitVariables | main.py:679-702 | `id` and `user_id` are `str` of `illustId` and `userId` |
| PathBuilder.ExplicitVariablesSpec | main.py:679-702 | the explicit map is built exactly when title and user are strings and the date, `//`, and both translated joins succeed; a non-string title raises `AttributeError`; the values are the sanitized title and user, the IDs, the date, the processed tags and the joined labels |
| PathBuilder.TemplateTable | main.py:679-728 | after flattening and the fill, `id` and `user_id` still hold the explicit values |
| PathBuilder.ExplicitIdsKept | main.py:705-720 | flattening never overwrites `id` or `user_id` |
| PathBuilder.BuildPathSpec | main.py:668-745 | what `buildPath` returns; `PathBuilder.BuildPathOutcomes` and `PathBuilder.PathNamesComeFromExplicitMap` state its outcomes |
| PathBuilder.BuildPath | main.py:668-745 | the method that calls the tag, flattening and fill steps and renders the template computes `BuildPathSpec` |
| PathBuilder.BuildPathOutcomes | main.py:670-702 | `None` for an empty or non-mapping input; an error escapes exactly when building the explicit map raises |
| PathBuilder.PathNamesComeFromExplicitMap | main.py:737-745 | both the primary and the fallback path are three parts: the target directory, a folder, and `str(illustId) + ext`; the fallback folder is `str(userId)` |
| PathBuilder.FolderIsNotSanitized | main.py:733-737 | with the template `"a:b"`, whenever the explicit map is built the primary folder part is `"a:b"`, although sanitizing would change it |
| PathBuilder.RenderLiteralColon | main.py:733 | the literal template `"a:b"` renders unchanged |
| PathBuilder.ProcessFileRecord | main.py:475-498 | `process_file` passes a seven-entry record |
| PathBuilder.FieldAvoids | main.py:705-720 | a field whose key is not `k` and does not begin `k` followed by `_` stores nothing under `k` |
| PathBuilder.LeavesConcat | main.py:706 | the leaves of concatenated fields are concatenated |
| PathBuilder.SafeFieldKeeps | main.py:705-720 | a field that is safe for a present key leaves it unchanged |
| PathBuilder.KeptWhenFieldsSafe | main.py:705-720 | a key every top-level field is safe for keeps its value through the flattening |
| PathBuilder.RecordKeyAvoids | main.py:489-495 | the six scalar keys of the record are neither explicit keys nor prefixes of them followed by `_` |
| PathBuilder.TagsFieldLeaves | main.py:496 | the record's `tags` entry is one leaf, whose own key is `tags` |
| PathBuilder.ProcessFileKeepsExplicit | main.py:475-498 | for the record `process_file` builds, flattening overwrites none of the thirteen explicit variables |
| PathBuilder.ProcessFileTemplateTable | main.py:475-498 | so every explicit variable reaches the template exactly as computed |
| Text.DiffersAt | main.py:710 | texts that differ inside a prefix do not start with it |
| IdExtractor.BuildPattern | main.py:528-535 | the regular expression `extractId` builds; `IdExtractor.UsesIdGroup` and `IdExtractor.UsesIdNumGroup` state it for the two rules |
| IdExtractor.SubLazy | main.py:535 | `re.sub(r"{.*?}", ".*?", p)`; `IdExtractor.SubLazyKeepsBraceFree` and `IdExtractor.SubLazyField` state its effect |
| IdExtractor.Compile | main.py:537 | the pattern read as a token list; `IdExtractor.CompilesIdGroup` and `IdExtractor.CompilesIdNumGroup` state it for the two patterns |
| IdExtractor.Match | main.py:537 | `re.match` with Python's backtracking order; `IdExtractor.MatchCaptures` and `IdExtractor.LoneGroupMatch` state its captures |
| IdExtractor.ExtractId | main.py:522-554 | what `extractId` returns; `IdExtractor.FoundIsDigitsOfStem`, `IdExtractor.DefaultRuleTakesLeadingDigits` and `IdExtractor.IdNumRuleNeverExtracts` state its results |
| IdExtractor.FieldEnd | main.py:535 | the first `}` or newline at or after a position |
| IdExtractor.SubLazyKeepsBraceFree | main.py:535 | `re.sub(r"{.*?}", ".*?", p)` leaves a text without `{` unchanged |
| IdExtractor.SubLazyField | main.py:535 | a `{name}` with no `}` or newline inside becomes `.*?`, and rewriting continues after it |
| IdExtractor.MatchCaptures | main.py:537 | every match captures each group of the pattern once, in order, on a non-empty digit run of the file name |
| IdExtractor.Capture | main.py:539 | the capture of a named group, absent exactly when the match has no group of that name |
| IdExtractor.FoundIsDigitsOfStem | main.py:522-539 | a returned ID is a non-empty run of decimal digits taken from the file name |
| IdExtractor.IdNumGroupIsNeverRead | main.py:532-539 | a pattern whose only groups are `id_num` never has a group `id` to return |
| IdExtractor.UsesIdGroup | main.py:534-535 | the rule `{id}` becomes the pattern `(?P<id>\d+)(?:_p\d+)?` |
| IdExtractor.UsesIdNumGroup | main.py:532-535 | the rule `{id_num}` becomes the pattern `(?P<id_num>\d+)` |
| IdExtractor.CompilesIdGroup | main.py:534 | that pattern is one digit group named `id` with the optional page suffix |
| IdExtractor.CompilesIdNumGroup | main.py:533 | that pattern is one digit group named `id_num` |
| IdExtractor.LoneGroupMatch | main.py:537 | a lone digit group matches exactly when the name starts with a digit, and then captures the whole leading digit run |
| IdExtractor.DefaultRuleTakesLeadingDigits | main.py:522-539 | with the default rule `{id}`, the ID is the leading digit run of the file stem, and a stem without one gives none |
| IdExtractor.IdNumRuleNeverExtracts | main.py:532-539 | with the rule `{id_num}`, a stem that starts with a digit makes `extractId` raise `IndexError` (the group is named `id_num` but `id` is read), and any other stem gives none |

## Left out

- The Flet UI (`setui`, `set_directory`, `main`) is not modelled: it is widget wiring.
- Configuration persistence (`savec`, `loadc`) is not modelled: it is file
  I/O. The configuration is an immutable input record (`Config.Config`).
- The gettext lookups `_("无标题")`, `_("未知用户")` and `_("无响应")`
  (main.py:477-478, 662) are fixed to their Chinese source strings, because
  translation catalogues are runtime data. `buildPath` uses the same texts
  as plain literals (main.py:681-682).
- Logging output and `clear_log_file` are not modelled: they are I/O. Only
  the level comparison is kept (`Config.WrittenToFile`), together with the
  final-failure message text (`RetryPolicy.FinalFailureMessage`).
- Directory scanning, `makedirs`, `exists` and `copy2` in `org` and
  `process_file` are not modelled: they are filesystem I/O. The record
  `process_file` builds is modelled.
- `requests.get` is replaced by a finite sequence of outcomes, and
  `time.sleep` is recorded as events, because both are network and clock
  effects.
- The `Retry-After` header is taken as already converted by `int`. A header
  that `int` cannot parse raises a `ValueError` that escapes `getInfo`; this
  is not modelled, because it is header parsing.
- Fetcher.GetInfo: the result `InputExhausted` is a model artefact. It stands
  for the loop wanting more outcomes than the sequence supplies.
- RetryPolicy.CalculateRetryDelay: `random.uniform(0, 1)` is a parameter known
  only to lie in [0, 1], because it is random. Delays are exact reals, with no
  floating point.
- `json.dumps`, the `repr` of containers, and `strptime`/`strftime` are
  uninterpreted fields of `Json.Env`, because their output text is library
  formatting.
- Floats in the metadata are not modelled: JSON values are null, booleans,
  integers, strings, lists and mappings.
- Json.Lookup: duplicate keys in a JSON mapping are not resolved as Python
  does (last one wins); the first entry with the key is found.
- Variables.AddNested: a mapping that repeats a key is flattened once per
  entry. At the top level the first value stored wins, since the second entry
  finds its key present; deeper down the later entry overwrites the earlier
  one unless its own key is present. Python's `json.loads` would have kept
  only the last entry.
- `\w` and `\d` are taken in their ASCII range, because Unicode character
  classes are large tables. Python also matches other Unicode letters and
  digits.
- Format.Render: `str.format` beyond plain names is reported as outside the
  model. This covers indexing, attributes, conversions and format specs.
- The folder path is a list of parts (`PathBuilder.PathResult`), because
  `pathlib` joining (an absolute part resets the path, and `..` is kept) is
  not modelled.
- Format.RenderExample: the concrete rendering example is a single template,
  `"/{title}"`. General rendering is covered by `Format.RenderPlain`.
- IdExtractor.Compile: patterns with regular-expression syntax beyond literal
  characters, `.`, `.*?` and the two inserted groups give `OutsideFragment`.
  This happens when a rule's literal text holds characters such as `(`, `[`,
  `+` or a lone `}`, because Python's full regular-expression language is not
  modelled.
- The two `rule.replace` calls of `extractId` have no model, because their
  results are discarded and so have no effect.
- The custom-regex fallback of `extractId` is not modelled.
  `hasattr(self, "id_regex_pattern")` is always false, because the pattern is
  only stored in the configuration, so the branch cannot run; `NotFound` is
  returned instead.
- `init.py` is not modelled: it is locale setup and stream wrapping.
- The `thread_count` setting is not modelled, because it is never used.
