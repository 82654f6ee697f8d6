# MastodonToTwitter relay core, modelled in Dafny

MastodonToTwitter mirrors a user's posts between Mastodon and Twitter, in both
directions. This project models the relay's decision and rewrite logic and proves
what that logic promises:

- which statuses are relayed and which are skipped;
- how a toot is measured, split into tweet-sized parts and numbered (or cut and
  closed with a link);
- how the parts are posted as a reply chain, with media on the last part and a
  bounded number of retries;
- how a tweet is rewritten into a toot: mentions marked, short links expanded,
  the content warning extracted, media links removed;
- how toot/tweet pairs are linked both ways, and how the "sent" lists keep the
  relay's own posts from bouncing back.

The platform APIs, the regex engine, the HTML cleaning and the clock appear as
parameters: functions the caller supplies, whose answers the model takes as given.

Modules, one per file:

- `Python` (python.dfy): the runtime behaviour the relay relies on. This covers
  `str()` of ids, int/str/None values and truthiness, `strip`, `split(' ')`,
  `join`, slicing with negative bounds, and `re.sub` with a literal pattern.
- `Length` (length.dfy): `calc_expected_status_length` and `split_status`
  (mtt/utils.py). The greedy wrap, the hard split, the truncation and the
  `' — i/n'` numbering are imperative methods, each proved against its
  specification.
- `SharedState` (ledger.dfy): the `MTTThread` shared state as a `Ledger` class.
  It holds the two association maps and the two sent lists, and the startup
  rebuild of `t2m` as the inverse of `m2t` (mtt/__main__.py).
- `MastodonToTwitter` (mastodon_to_twitter.dfy): `TwitterPublisher` and its
  `on_update` listener step.
- `TwitterToMastodon` (twitter_to_mastodon.dfy): the per-tweet body of
  `MastodonPublisher.run`.
- `LegacyRelay` (legacy.dfy): the older single-script relay (MastodonToTwitter.py).
  It has its own length default (23), its fixed 140/135 split, ` --` part
  suffixes and newest-first polling.

Each listener step is one sequential method on the publisher object, changing the
shared `Ledger`. Its contract is stated against pure specification functions
(`Screen`, `ScreenTweet`, `Retry`, `Chained`, `Rewritten`, …) whose properties are
proved as lemmas.

The model follows the code as written. Some of the behaviour it
reproduces is probably not what the authors meant:

- The refreshed `url_length` (mtt/mastodon_to_twitter.py:45-51) is never passed
  to `split_status` (mtt/mastodon_to_twitter.py:140-145). Splitting therefore
  always uses the default of 24; `RelayDraft` states this.
- A failed media transfer is not retried.
  - In mtt/mastodon_to_twitter.py:166-171 it sits outside the retry loop, so it
    abandons the toot (`StoppedAt`).
  - In mtt/twitter_to_mastodon.py:101-112 it sits outside every `try`, so it ends
    the stream loop (`Halted`).
- A toot flagged as reblogged whose `reblog` is `None` raises in `on_update`
  before the `try` whose comment says to give up and go on with the next toot on
  error (mtt/mastodon_to_twitter.py:147). The error ends the listener
  (`Broken`/`Crashed`).
- `TOOT_VISIBILITY_REQUIRED_TO_TRANSFER` is read but not defined in mtt/config.py,
  so the visibility allow-list is a parameter (`Config.visibilities`).
- Tweets are retried `MASTODON_RETRIES` times and toots `TWITTER_RETRIES` times, as
  written. Both counts are `Config.retries` in this model.

The four places listed under "## Findings" are the exception. There the model
has both versions: members that reproduce the code as written and show what goes
wrong, and the corrected behaviour, which the publishers use.

## Model

| member | source | states |
|---|---|---|
| `Python.SplitOnSpace` | mtt/utils.py:152 | `split(' ')` gives at least one piece, and no piece holds a space |
| `Python.JoinSplitOnSpace` | mtt/utils.py:152 | joining the pieces of `split(' ')` with single spaces gives the text back |
| `Python.StripProperties` | mtt/utils.py:181-182 | `strip` keeps every non-space character; it is empty exactly for an all-space text; it neither starts nor ends with whitespace |
| `Python.Take` | mtt/utils.py:173 | `s[:k]` is a prefix; it has length `k` when `0 <= k <= len(s)` and `max(0, len(s)+k)` for negative `k` |
| `Python.Drop` | mtt/utils.py:162 | `s[:k] + s[k:] == s` for every `k` |
| `Python.FirstIndexOf` | mtt/mastodon_to_twitter.py:70 | the index that `split('@')[0]` stops at: no `@` before it, and an `@` at it when it is inside the text |
| `Python.ParseNatToString` | mtt/utils.py:190 | the decimal `str()` of a count reads back as that count |
| `Python.ParseIntOfToString` | mtt/__main__.py:70 | `int(str(n)) == n` for every int: the decimal text of an int reads back as that int |
| `Python.ParseIntNeedsDigit` | mtt/__main__.py:70 | a text without a digit makes `int()` fail |
| `Python.JoinWithAt` | mtt/twitter_to_mastodon.py:98 | in `sep.join(words)` every word sits at its offset, the words in order, one separator apart |
| `Python.ReplaceAllAbsent` | mtt/twitter_to_mastodon.py:95 | a pattern that never occurs leaves the text unchanged |
| `Python.ReplaceAllSelf` | mtt/twitter_to_mastodon.py:95 | replacing a non-empty pattern by itself leaves the text unchanged |
| `Python.ReplaceAllLength` | mtt/twitter_to_mastodon.py:104 | each non-overlapping occurrence replaced changes the length by `len(rep) - len(pat)` |
| `Length.EffectiveLength` | mtt/utils.py:121-129 | with no URL match, the effective length is `len(status)` |
| `Length.EffectiveLengthIsShortenedLength` | mtt/utils.py:121-129 | the effective length is the length of the text once every URL match is replaced by a short link of `short_url_length` characters, and it is never negative |
| `Length.ReplaceSpansLength` | mtt/utils.py:126-127 | replacing non-overlapping matches gives `len - matched chars + matches * len(rep)` |
| `Length.BreakWord` | mtt/utils.py:157-165 | an overflowing word is cut exactly when it is over 30 characters, `space_left > 5` and it is not a URL; its head then fills `space_left`; either way no non-space character is lost |
| `Length.CutKeeps` | mtt/utils.py:160-162 | cutting a word after `k` characters keeps the text |
| `Length.CutKeepsNonSpace` | mtt/utils.py:160-162 | cutting a word keeps its non-space characters, in order |
| `Length.HardSplit` | mtt/utils.py:167-170 | every slice has exactly the width, what remains is at most the width, and slices plus rest give the part back |
| `Length.Number` | mtt/utils.py:187-190 | part `i` of `n` (from 1) gets `' — i/n'` appended, where `n` is the final count |
| `Length.NumberSuffixInjective` | mtt/utils.py:190 | two numbering suffixes are equal only for the same position out of the same count |
| `Length.AccumulatedIsJoin` | mtt/utils.py:151-178 | a part built only by appending words is a space followed by the words joined with spaces |
| `Length.JoinWithSnoc` | mtt/utils.py:178 | appending one word after a space extends the joined text |
| `Length.NoOverflowExtend` | mtt/utils.py:154 | one more word that fits extends the run of words that did not overflow |
| `Length.SplitCutKeeps` | mtt/utils.py:154-170 | closing a part at an overflowing word keeps the non-space text of parts, current part and remaining words |
| `Length.SplitAppendKeeps` | mtt/utils.py:176-178 | appending a word that fits keeps the same non-space text |
| `Length.InsertLastPart` | mtt/utils.py:180-182 | the stripped last part is appended unless it is blank and a part exists; the list is never empty; non-space text is kept |
| `Length.SplitWords` | mtt/utils.py:151-182 | the wrap in splitting mode gives at least one part, and the parts' non-space text is the words' |
| `Length.TruncateWords` | mtt/utils.py:151-182 | the wrap with splitting off gives exactly one part: cut before the first word that overflows and closed by `'… ' + url`, or the stripped text if no word overflows |
| `Length.SplitStatus` | mtt/utils.py:132-192 | at least one part; a status within `max_length - 6` comes back unchanged as the only part; with splitting, non-space text is kept and parts are numbered `i/n` when there are several; without it, one truncated part |
| `SharedState.Associate` | mtt/utils.py:48-55 | `m2t[toot] = tweet` and `t2m[tweet] = toot`, with no other key added or changed |
| `SharedState.AssociateIdempotent` | mtt/utils.py:48-55 | associating the same pair twice equals associating it once |
| `SharedState.AssociateKeepsLinked` | mtt/utils.py:54-55 | associating keeps every association followable across the two maps |
| `SharedState.AssociateKeepsInverse` | mtt/utils.py:54-55 | `t2m` stays the inverse of `m2t` for a new or repeated pair |
| `SharedState.ReassociateBreaksInverse` | mtt/utils.py:54-55 | re-associating a toot with another tweet leaves the old tweet behind, so the maps are no longer inverse |
| `SharedState.Rebuild` | mtt/__main__.py:70-71 | the final saved entry maps its toot to its tweet in the rebuilt `m2t` |
| `SharedState.RebuildLastWins` | mtt/__main__.py:70 | for every toot, its last saved entry decides its tweet: that entry's toot maps to its tweet in the rebuilt `m2t` |
| `SharedState.RebuildTootDomain` | mtt/__main__.py:70 | the rebuilt `m2t` knows exactly the saved toots |
| `SharedState.RebuildTweetDomain` | mtt/__main__.py:71 | the rebuilt `t2m` knows exactly the saved tweets |
| `SharedState.RebuildLinked` | mtt/__main__.py:67-71 | the rebuilt maps are always followable |
| `SharedState.RebuildInverse` | mtt/__main__.py:70-71 | with no tweet saved twice, the rebuilt `t2m` is exactly the inverse of `m2t` |
| `SharedState.RawLookupMissesMarkedTweet` | mtt/twitter_to_mastodon.py:50-52 | a tweet marked with `str(id)` is found by the `str` lookup, but not by the raw-id test as written |
| `SharedState.RawAppendMissedByStrLookup` | mtt/twitter_to_mastodon.py:178 | a raw int toot id appended to the list is not found by `str(id) in toots` |
| `SharedState.DictSet` | mtt/__main__.py:70 | `d[k] = v` on an insertion-ordered dict: the keys gain `k`, `(k, v)` is an item, the items of other keys stay, and a new key goes last |
| `SharedState.KeysOfIndex` | mtt/__main__.py:70 | a key is in the dict exactly when some item has it |
| `SharedState.DictSetDistinct` | mtt/__main__.py:70 | setting a key never repeats a key |
| `SharedState.IntKeys` | mtt/__main__.py:70 | the `object_hook` fails exactly when some saved key is not an int literal; otherwise it gives a dict without repeated keys |
| `SharedState.Dumped` | mtt/utils.py:57-60 | `json.dump` of `m2t` with int toot ids writes item `i` as `(str(toot), tweet)`, in order |
| `SharedState.IntKeysOfDumped` | mtt/utils.py:57-60 | associations with int toot ids, saved with `json.dump` and loaded back through `int(k)`, are the same entries in the same order |
| `SharedState.Ledger.Load` | mtt/__main__.py:70-84 | the startup state from the converted entries is the rebuilt associations with empty sent lists, and it is followable |
| `SharedState.Ledger.Startup` | mtt/__main__.py:67-73 | startup stops exactly when a saved key is not an int; a file that cannot be opened gives no associations; otherwise the associations are rebuilt from the converted keys, with empty sent lists |
| `SharedState.Ledger.MarkTootSent` | mtt/utils.py:32-34 | appends `str(id)` to the sent toots, after which `is_toot_sent_by_us(id)` holds; nothing else changes |
| `SharedState.Ledger.MarkTweetSent` | mtt/utils.py:36-38 | appends `str(id)` to the sent tweets, after which `is_tweet_sent_by_us(id)` holds; nothing else changes |
| `SharedState.Ledger.AppendTootRaw` | mtt/twitter_to_mastodon.py:178 | appends the raw id to the sent toots; nothing else changes |
| `SharedState.Ledger.IsTootSentByUs` | mtt/utils.py:40-42 | an id and its `str()` get the same answer, and only a string in the sent toots is ever found |
| `SharedState.Ledger.IsTweetSentByUs` | mtt/utils.py:44-46 | an id and its `str()` get the same answer, and only a string in the sent tweets is ever found |
| `SharedState.Ledger.AssociateStatus` | mtt/utils.py:48-55 | the maps become `Associate` of the old maps; the sent lists are unchanged; followability is kept |
| `MastodonToTwitter.SameAccounts` | mtt/mastodon_to_twitter.py:53-72 | false when ids differ; with equal ids, compares the URLs before the first `@` when both have one, else the whole URLs |
| `MastodonToTwitter.SameAccountsReflexive` | mtt/mastodon_to_twitter.py:63-72 | every account is the same as itself |
| `MastodonToTwitter.SameAccountsSymmetric` | mtt/mastodon_to_twitter.py:63-72 | the comparison does not depend on argument order |
| `MastodonToTwitter.SameAccountsTransitive` | mtt/mastodon_to_twitter.py:63-72 | the comparison is transitive |
| `MastodonToTwitter.SourceOfToot` | mtt/mastodon_to_twitter.py:107-118 | a plain toot is relayed as its own content, unchanged; a reblog relays the boosted toot: the text starts with `🔁 RT @` and the author's name, holds the boosted content after the header and ends with the boosted toot's link |
| `MastodonToTwitter.WithWarningKeepsText` | mtt/mastodon_to_twitter.py:137-138 | the text always ends the result; the result differs from it exactly when a prefix is configured and the spoiler is non-empty, and the spoiler then follows the prefix's opening part |
| `MastodonToTwitter.Screen` | mtt/mastodon_to_twitter.py:86-138 | dropped, in order: not ours, already sent (`str` lookup), bad visibility, cleaned text starting with `@`; broken for a `None` reblog; otherwise a draft with the wrapper's id and the prefixed cleaned text |
| `MastodonToTwitter.ReblogDraft` | mtt/mastodon_to_twitter.py:98-118 | a reblog is tweeted under the wrapper's id, with the boosted toot's media, link, reply target and text |
| `MastodonToTwitter.EchoedTootNotDroppedAsWritten` | mtt/twitter_to_mastodon.py:174-178 | a toot recorded with its raw int id is not dropped as already sent when it comes back |
| `MastodonToTwitter.EchoedTootDropped` | mtt/mastodon_to_twitter.py:98-101 | a toot recorded with `str(id)` is dropped as already sent |
| `MastodonToTwitter.RetryOutcome` | mtt/mastodon_to_twitter.py:178-212 | a part gives up only after all `retries + 1` attempts met a `TwitterError`; otherwise the outcome is that of the first attempt without one |
| `MastodonToTwitter.PostPart` | mtt/mastodon_to_twitter.py:178-212 | the retry loop with its counter yields `Retry(post, k, 0, retries)` |
| `MastodonToTwitter.UploadAll` | mtt/mastodon_to_twitter.py:166-171 | succeeds exactly when every attachment uploads; then the ids are the uploads, in order |
| `MastodonToTwitter.FirstReplyToRoundTrip` | mtt/mastodon_to_twitter.py:149-159 | with inverse associations, the tweet the first part answers maps back through `t2m` to the toot being answered; an unknown parent gives no reply target; a reply to a toot just associated answers that toot's tweet |
| `MastodonToTwitter.ChainedExtend` | mtt/mastodon_to_twitter.py:161-205 | appending the posted tweet of the next part keeps the reply chain |
| `MastodonToTwitter.MarkedExtend` | mtt/mastodon_to_twitter.py:192-203 | marking the next posted tweet extends the sent list by its `str(id)` |
| `MastodonToTwitter.TwitterPublisher.constructor` | mtt/mastodon_to_twitter.py:13-32 | starts with the shared ledger, our account and a short-link length of 24 |
| `MastodonToTwitter.TwitterPublisher.IsFromUs` | mtt/mastodon_to_twitter.py:74-75 | only an account with our id can be ours, and the test is the same with the two accounts swapped |
| `MastodonToTwitter.TwitterPublisher.UpdateTwitterLinkLength` | mtt/mastodon_to_twitter.py:45-51 | after more than 86400 s the length becomes `max(http, https) + 1` and the timestamp `now`; otherwise both are unchanged |
| `MastodonToTwitter.TwitterPublisher.PostChain` | mtt/mastodon_to_twitter.py:147-225 | the posted tweets form the reply chain of the stripped parts from `FirstReplyTo`; media only on the last part; every posted tweet is marked; the toot is associated with the last tweet only when all parts posted; a stop is explained by exhausted retries or a failed upload |
| `MastodonToTwitter.TwitterPublisher.RelayDraft` | mtt/mastodon_to_twitter.py:140-228 | the draft is split with length 24 into at least one part (one without splitting, the text itself when it fits in 274) and posted as that chain; the link length is refreshed |
| `MastodonToTwitter.TwitterPublisher.OnUpdate` | mtt/mastodon_to_twitter.py:86-228 | the result follows `Screen`: skipped as not ours exactly when `is_from_us` fails, as already sent exactly when it holds and `is_toot_sent_by_us` does; a toot that is not relayed changes nothing; a relayed one is split, chained, marked, and associated under the received toot id only when complete |
| `TwitterToMastodon.ScreenTweet` | mtt/twitter_to_mastodon.py:46-69 | skipped exactly when there is no text, when already sent (`str` lookup), or when it is a reply not continuing our mirrored thread; the content prefers `full_text`; the reply target is `t2m[in_reply_to_status_id]` for a kept reply, else `None` |
| `TwitterToMastodon.ScreenTweetAsWritten` | mtt/twitter_to_mastodon.py:49-52 | as written, the sent test skips exactly the items whose raw id is in the list |
| `TwitterToMastodon.EchoedTweetRelayedAsWritten` | mtt/twitter_to_mastodon.py:49-52 | as written, our own tweet, marked with `str(id)`, passes the screen again |
| `TwitterToMastodon.EchoedTweetSkipped` | mtt/utils.py:44-46 | with the `str` lookup, our own marked tweet is skipped |
| `TwitterToMastodon.TokenLen` | mtt/twitter_to_mastodon.py:82 | `\S*` takes the longest prefix without whitespace |
| `TwitterToMastodon.MentionLen` | mtt/twitter_to_mastodon.py:82 | a mention at the start is the `@` and the non-space characters after it, never empty and within the text |
| `TwitterToMastodon.SuffixEach` | mtt/twitter_to_mastodon.py:87-90 | each mention gets `@twitter.com` appended |
| `TwitterToMastodon.TaggedFirstMention` | mtt/twitter_to_mastodon.py:82-90 | in the tagged text, the first mention is the original mention plus the suffix, followed by the tagged rest |
| `TwitterToMastodon.MentionsOfTagged` | mtt/twitter_to_mastodon.py:82-90 | the mentions of the tagged text are exactly the original mentions, each suffixed once |
| `TwitterToMastodon.TaggedWithoutMentions` | mtt/twitter_to_mastodon.py:87 | a text without mentions is left unchanged |
| `TwitterToMastodon.SuffixMentionsAsWritten` | mtt/twitter_to_mastodon.py:87-90 | the loop as written replaces each found mention everywhere, one after the other |
| `TwitterToMastodon.MentionLenBeforeSpace` | mtt/twitter_to_mastodon.py:82 | a mention followed by whitespace is found whole |
| `TwitterToMastodon.MentionsOfTwice` | mtt/twitter_to_mastodon.py:82 | `m m` has the mentions `[m, m]`, and its tagged form suffixes each once |
| `TwitterToMastodon.FirstPassOfTwice` | mtt/twitter_to_mastodon.py:90 | the first `re.sub` suffixes both occurrences |
| `TwitterToMastodon.SecondPassOfTwice` | mtt/twitter_to_mastodon.py:90 | the second `re.sub` suffixes the first occurrence again |
| `TwitterToMastodon.MentionTwiceSuffixedTwice` | mtt/twitter_to_mastodon.py:87-90 | as written, a mention written twice ends up with the suffix twice, where the intended text has a space |
| `TwitterToMastodon.Unshorten` | mtt/twitter_to_mastodon.py:92-95 | the intended loop replaces each entity's short URL by its expanded URL, in entity order (as written, line 95 raises instead; see "## Findings") |
| `TwitterToMastodon.UnshortenedLength` | mtt/twitter_to_mastodon.py:92-95 | expanding a link changes the length by its occurrence count times the difference between the expanded and the short link |
| `TwitterToMastodon.LinkHaltsAsWritten` | mtt/twitter_to_mastodon.py:92-95 | as written, any tweet with a URL entity stops at the link loop; with the intended loop, a text that is one short link becomes its expanded link |
| `TwitterToMastodon.UnshortenedUnchanged` | mtt/twitter_to_mastodon.py:92-95 | links that do not occur, or that expand to themselves, leave the text unchanged |
| `TwitterToMastodon.WithoutLinksShorter` | mtt/twitter_to_mastodon.py:101-104 | removing the media links never makes the text longer |
| `TwitterToMastodon.StripEach` | mtt/twitter_to_mastodon.py:98 | every captured warning is stripped, in order |
| `TwitterToMastodon.WarningHoldsCaptures` | mtt/twitter_to_mastodon.py:97-98 | with several warnings allowed, every stripped capture is in the warning at its offset, in order and one separator apart |
| `TwitterToMastodon.WarningMultiExtendsSingle` | mtt/twitter_to_mastodon.py:98 | the single-setting warning is a prefix of the multi-setting one |
| `TwitterToMastodon.WarningSingle` | mtt/twitter_to_mastodon.py:98 | with a single capture, both settings give the same warning |
| `TwitterToMastodon.WithoutWarningStripped` | mtt/twitter_to_mastodon.py:99 | with a warning found, the toot text keeps every non-space character the substitution left, is empty exactly when that is all whitespace, carries no surrounding whitespace, and is its own `strip()` |
| `TwitterToMastodon.TryOnce` | mtt/twitter_to_mastodon.py:122-161 | a toot is posted with the request as is, or, only after a `MastodonAPIError`, with the same request minus the reply target |
| `TwitterToMastodon.RetryOutcome` | mtt/twitter_to_mastodon.py:115-170 | posting gives up only after all `retries + 1` attempts failed with a `MastodonError`; otherwise it ends with the first attempt that did not, tooted or unhandled accordingly |
| `TwitterToMastodon.PostToot` | mtt/twitter_to_mastodon.py:115-170 | the loop with its `retry_counter` yields `Retry(post, q, 0, retries)` |
| `TwitterToMastodon.TransferMedia` | mtt/twitter_to_mastodon.py:101-112 | succeeds exactly when every media transfers (https URL first); then every media link is removed and the ids are the uploads, in order |
| `TwitterToMastodon.MastodonPublisher.constructor` | mtt/twitter_to_mastodon.py:16-31 | starts with the shared ledger and our Twitter account id |
| `TwitterToMastodon.MastodonPublisher.OnTweet` | mtt/twitter_to_mastodon.py:46-186 | the result follows `ScreenTweet`, skipped as already sent exactly when the item has text and `is_tweet_sent_by_us` holds; halted exactly when a media transfer fails; the request is the rewritten text with the media links removed, the warning, the media ids and the reply target, with `sensitive` only when there are media; its posting follows `Retry`; only a tooted post is associated with the tweet and marked with `str(id)`, and nothing changes otherwise |
| `LegacyRelay.LegacyLength` | MastodonToTwitter.py:39-46 | with no URL match, the length is `len(status)` (short links count 23) |
| `LegacyRelay.SplitToot` | MastodonToTwitter.py:212-245 | a toot of effective length at most 140 is the only part, unchanged; otherwise it is wrapped at 135; always at least one part, keeping every non-space character |
| `LegacyRelay.ThreadExtend` | MastodonToTwitter.py:250-284 | appending the next posted tweet keeps the thread |
| `LegacyRelay.UploadAll` | MastodonToTwitter.py:256-274 | succeeds exactly when every attachment uploads; then the ids are the uploads, in order |
| `LegacyRelay.PostThread` | MastodonToTwitter.py:247-286 | each tweet replies to the previous one (the first to nothing); all parts but the last end in ` --`; media only on the last; the first error stops the thread and what was posted stays |
| `LegacyRelay.HandleToot` | MastodonToTwitter.py:197-286 | a cleaned text starting with `@` is skipped exactly; anything else is split and tweeted as such a thread |
| `LegacyRelay.Reversed` | MastodonToTwitter.py:193 | the reversed list has element `i` at position `n - 1 - i` |
| `LegacyRelay.ReversedTwice` | MastodonToTwitter.py:193 | reversing twice gives the list back |
| `LegacyRelay.Poller.constructor` | MastodonToTwitter.py:186 | the watermark starts at the given toot id |
| `LegacyRelay.Poller.Poll` | MastodonToTwitter.py:188-196 | a non-empty fetch moves the watermark to the newest toot, an empty one leaves it; every fetched toot is handled, oldest first |

## Findings

| source | as written | input that shows it | evidently intended | confidence | as-written member | corrected member |
|---|---|---|---|---|---|---|
| mtt/twitter_to_mastodon.py:51 | `tweet_id in sent_status['tweets']` tests the raw int id, but mtt/utils.py:38 stores `str(tweet_id)` | a tweet the relay posted to Twitter, id `5`, comes back from the user stream: `5` is not in `['5']` | the skip uses `is_tweet_sent_by_us`, which compares `str(id)` | not executed | `TwitterToMastodon.EchoedTweetRelayedAsWritten` | `TwitterToMastodon.EchoedTweetSkipped` |
| mtt/twitter_to_mastodon.py:178 | `sent_status['toots'].append(since_toot_id)` stores the raw int id, but mtt/utils.py:42 looks up `str(toot_id)` | a toot the relay posted to Mastodon, id `7`, comes back from the Mastodon stream: `'7'` is not in `[7]` | the toot is recorded with `mark_toot_sent`, which stores `str(id)` | not executed | `MastodonToTwitter.EchoedTootNotDroppedAsWritten` | `MastodonToTwitter.EchoedTootDropped` |
| mtt/twitter_to_mastodon.py:87-90 | each found mention is replaced everywhere, once per time it was found, so a repeated mention gets the suffix again on every pass (and a mention found inside an earlier suffix, such as `@t` in `@twitter.com`, is corrupted too) | the tweet `@a @a` becomes `@a@twitter.com@twitter.com @a@twitter.com@twitter.com` | every mention gets `@twitter.com` once | not executed | `TwitterToMastodon.MentionTwiceSuffixedTwice` | `TwitterToMastodon.MentionsOfTagged` |
| mtt/twitter_to_mastodon.py:95 | `url.url` and `url.expanded_url` are read as attributes, but the URL entities of a stream item are dicts, as the item itself is at lines 46-79 and the media entities are at line 104; the `AttributeError` is raised before the `try` of line 115 | a tweet `see https://t.co/x` with the URL entity `{'url': 'https://t.co/x', 'expanded_url': 'https://e.com'}`: the stream loop of `run` ends and nothing is tooted | `url['url']` and `url['expanded_url']`, expanding every short link | not executed | `TwitterToMastodon.LinkHaltsAsWritten` | `TwitterToMastodon.UnshortenedLength` |

In all four rows, the rest of the model uses the corrected behaviour.

- `ScreenTweet` uses the `str` lookup.
- `OnTweet` records the posted toot with `MarkTootSent` (the raw append is kept
  as `SharedState.Ledger.AppendTootRaw`).
- `Rewritten` marks mentions with `Tagged` and expands links with `Unshortened`
  (the as-written loop is `UnshortenedAsWritten`).

## Left out

- The regular expressions are parameters of the model, not their contents:
  - the URL pattern, with its TLD list (`Length.UrlMatcher`, assumed to return
    spans in order when a proof needs it);
  - `is_url`;
  - the content-warning pattern (`CwRegexp`: its `findall` captures and its
    `sub`).
- The HTML cleaning of toots is a parameter, `Cleaner`: link rewriting, `<br>`
  and paragraph handling, tag removal, `strip`, `html.unescape` and the media-URL
  pattern. `html.unescape` of tweets and `urlparse(...).netloc` are parameters too.
- `re.sub` with a mention, a short URL or a media URL as the pattern is modelled
  as literal replacement. A pattern holding regex metacharacters (which Python
  would interpret, or reject with `re.error`) is not modelled.
- `str.format` of `TWEET_CW_PREFIX` is modelled for a template with one `{}`
  placeholder (`Template`).
- Outside effects are not modelled: threads and the lock, `time.sleep`,
  `STATUS_PROCESS_DELAY`, logging, `save_status_associations` (a JSON file
  write), and the HTTP/temp-file internals of `transfer_media`. An upload is an
  oracle that returns a media id or fails.
- The platform calls are oracles indexed by the attempt:
  - `PostUpdate` by part and attempt;
  - `status_post` by attempt and request;
  - the legacy `PostUpdate` by part.
  `GetShortUrlLength` values and `time.time()` are method parameters.
- The stream iteration (`stream_user`/`GetUserStream`) is one call per status:
  `OnUpdate`, `OnTweet` or `Poll` for one round.
- `init_process` of both publishers is left out, apart from its first call of
  `update_twitter_link_length` (`UpdateTwitterLinkLength`). The rest only seeds
  `since_toot_id`/`since_tweet_id`, which the relay uses for logging alone.
- The bootstrap is left out: credentials (mtt/credentials.py), configuration
  loading (mtt/config.py, mtt/__init__.py), API construction and thread start. The
  model keeps only the startup rebuild of the associations (mtt/__main__.py:67-84).
- `Length.SplitStatus`: in splitting mode it requires `max_length >= 12`. Below
  that, the hard-split loop of mtt/utils.py:168-170 does not terminate once the
  hard split is reached. The only call site passes 280.
- `Length.SplitStatus`: the single word loop of mtt/utils.py:152-178 is modelled
  as two loops, one per mode (`SplitWords`, `TruncateWords`), since `split` does
  not change inside it.
- `SharedState.Ledger.Startup`: the saved file is given as the items of its JSON
  object. A file that is not valid JSON (a `ValueError` as well, also not caught)
  is not modelled.
- `SharedState.Dumped`: it requires every toot id to be an `int`, as the ids
  Mastodon's streaming API hands to `associate_status` are. An `m2t` key of
  `None` would be written by `json.dump` as `null`, which `str()` does not
  give; the model does not write such keys.
- `Python.ParseInt`: `int()` also accepts non-ASCII decimal digits; the model
  rejects them.
- `MastodonToTwitter.Screen`: a reblog whose `reblog` is `None` is modelled as
  the error it raises (`Broken`), not as Python's exception object.
- `TwitterToMastodon.MastodonPublisher.OnTweet`: a failed media transfer ends
  with `Halted`; in the source it ends the whole stream loop of `run`.
- `TwitterToMastodon.MastodonPublisher.OnTweet`: models the corrected step, not
  the code as written. Four places differ (see "## Findings"):
  - the sent test uses `str(id)` (`ScreenTweet`), where line 51 tests the raw id
    (`ScreenTweetAsWritten`);
  - each mention is suffixed once (`Tagged`), where lines 87-90 re-substitute
    every found mention (`SuffixMentionsAsWritten`);
  - short links are expanded (`Unshortened`), where line 95 raises on the first
    URL entity (`UnshortenedAsWritten`);
  - the posted toot is recorded with `MarkTootSent`, where line 178 appends the
    raw id (`SharedState.Ledger.AppendTootRaw`).
- `TwitterToMastodon.ScreenTweet`: uses the `str(id)` lookup of mtt/utils.py:44-46
  where mtt/twitter_to_mastodon.py:51 tests the raw id; `ScreenTweetAsWritten` is
  the code as written.
- `TwitterToMastodon.MediaUrl`: a media entity is assumed to have `media_url`
  when it lacks `media_url_https`. The source raises a `KeyError` otherwise.
- `split_status` with `url=None` in truncating mode is not modelled (the URL is a
  string); the relay always passes the toot's `uri`.
- `LegacyRelay.Poller.Poll`: `new_toots.reverse()` is modelled on values
  (`Reversed`), not as an in-place reversal of a shared list.
