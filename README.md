# EmojiReactor: emoji mapping policy and utilities, in Dafny

EmojiReactor is a Discord bot. It sends posted images to an image-description
service, then reacts to each message with emoji chosen from the description
text. This project models and verifies the part of the bot that makes
decisions:

- **`EmojiMapper`** (`emoji_mapper.dfy`, module `EmojiMapping`).
  - **Keyword table.** A built-in table maps lowercase keywords to candidate emoji.
  - **Keyword path.** The analysis text is lowercased. Every keyword that occurs in it as a substring contributes one randomly chosen candidate to a set. A set larger than `max_emojis` is cut to a random subset of that size.
  - **Sentiment fallback.** When no keyword occurs, lexicon words are counted and one of three reaction lists is chosen.
  - **Fallback list.** Empty text, and every exception, give a prefix of a fixed fallback list.
  - **Table updates.** `add_custom_mapping` and `remove_mapping` change the table in place.
- **Utilities** (`utils.dfy`, module `Utils`).
  - The image URL check and the image size check.
  - Message truncation with an ellipsis.
  - The sliding window of `RateLimiter.wait_if_needed`. The clock reading `now` is a parameter, and the method returns the computed wait instead of sleeping.
- **Python semantics** (`text.dfy`, module `Text`). The parts these rely on:
  - `str.lower()`;
  - substring `in`;
  - the slice `xs[:n]`, including negative `n`;
  - duplicate-free lists.

How the model treats the source's features:
- **Randomness.** `random.choice` and `random.sample` are nondeterministic choices (`:|`). The contracts say where picks come from, how many there are, and that they are distinct. They say nothing about probabilities.
- **Exceptions.** A raised exception is an `Option`/datatype result, which the caller turns into the fallback prefix, as the `except` blocks do.
- **The table literal.** It is written as eleven maps, one per comment group of the source, joined in source order with the right-biased map union. For the key that appears twice, `'orange'`, the union therefore keeps the later, Colors, entry, just as a Python dict literal does.

Behaviour worth knowing:
- **Empty candidate lists.** The built-in table has a candidate for every keyword, and all its keywords are lowercase (`DefaultTable`). `add_custom_mapping` accepts an empty list, and `random.choice` then raises on it when the keyword matches. The model keeps that path: it yields the fallback prefix.
- **The empty keyword.** `add_custom_mapping('')` stores the empty keyword, which occurs in every text, so it matches on every call (`EmptyKeywordMatchesEverything`).
- **Negative `max_emojis`.**
  - The fallback and negative prefixes use Python's negative slice: `[:-1]` drops the last entry.
  - On the keyword path, a set of picks is longer than any negative size. `random.sample` then raises, and the fallback prefix is returned.
  - On the positive and neutral sentiment paths, `min(max_emojis, len(pool))` is negative. `random.sample` raises there too.
- **Image extensions.** The URL check accepts `.bmp`. It looks for the extension anywhere in the URL, not only at its end.
- **Truncation with a small limit.** `truncate_text` with a limit below 3 returns a text longer than the limit (`TruncateOvershootsSmallLimits`).
- **Rate limiter.** A computed wait always exceeds one second, so the `wait_time > 0` guard never skips the sleep. With `max_calls <= 0` and no recent calls, `self.calls[0]` raises IndexError after the list was pruned and before `now` is recorded. The model returns `IndexError` in that state.

## Model

| member | source | states |
|---|---|---|
| EmojiMapping.DefaultTable | EmojiReactor/emoji_mapper.py:13-166 | every keyword of the built-in table has at least one candidate emoji and is lowercase, so the lowered text can reach it |
| EmojiMapping.EmojiMapper.constructor | EmojiReactor/emoji_mapper.py:11-175 | a new mapper holds the built-in keyword table, whose keywords are all lowercase and all have a candidate |
| EmojiMapping.OrangeIsTheColorsEntry | EmojiReactor/emoji_mapper.py:48 | the Food & Drink group lists 'orange' as ['🍊'] but the effective table entry is the later Colors one, ['🧡','🟠','🍊'] |
| EmojiMapping.OrangeInColors | EmojiReactor/emoji_mapper.py:145 | the Colors group maps 'orange' to ['🧡','🟠','🍊'] |
| EmojiMapping.OrangeNotInLaterGroups | EmojiReactor/emoji_mapper.py:150-165 | no group after Colors redefines 'orange' |
| EmojiMapping.UnionWellFormed | EmojiReactor/emoji_mapper.py:13-166 | joining two groups whose keywords are all lowercase with non-empty lists keeps both properties |
| EmojiMapping.AnimalsNonEmpty | EmojiReactor/emoji_mapper.py:14-34 | every Animals keyword has a candidate |
| EmojiMapping.AnimalsKeysLowercase | EmojiReactor/emoji_mapper.py:14-34 | every Animals keyword is lowercase |
| EmojiMapping.FoodAndDrinkNonEmpty | EmojiReactor/emoji_mapper.py:36-56 | every Food & Drink keyword has a candidate |
| EmojiMapping.FoodAndDrinkKeysLowercase | EmojiReactor/emoji_mapper.py:36-56 | every Food & Drink keyword is lowercase |
| EmojiMapping.NatureAndWeatherNonEmpty | EmojiReactor/emoji_mapper.py:58-73 | every Nature & Weather keyword has a candidate |
| EmojiMapping.NatureAndWeatherKeysLowercase | EmojiReactor/emoji_mapper.py:58-73 | every Nature & Weather keyword is lowercase |
| EmojiMapping.ActivitiesAndSportsNonEmpty | EmojiReactor/emoji_mapper.py:75-89 | every Activities & Sports keyword has a candidate |
| EmojiMapping.ActivitiesAndSportsKeysLowercase | EmojiReactor/emoji_mapper.py:75-89 | every Activities & Sports keyword is lowercase |
| EmojiMapping.EmotionsAndExpressionsNonEmpty | EmojiReactor/emoji_mapper.py:91-103 | every Emotions & Expressions keyword has a candidate |
| EmojiMapping.EmotionsAndExpressionsKeysLowercase | EmojiReactor/emoji_mapper.py:91-103 | every Emotions & Expressions keyword is lowercase |
| EmojiMapping.TransportationNonEmpty | EmojiReactor/emoji_mapper.py:105-114 | every Transportation keyword has a candidate |
| EmojiMapping.TransportationKeysLowercase | EmojiReactor/emoji_mapper.py:105-114 | every Transportation keyword is lowercase |
| EmojiMapping.TechnologyNonEmpty | EmojiReactor/emoji_mapper.py:116-121 | every Technology keyword has a candidate |
| EmojiMapping.TechnologyKeysLowercase | EmojiReactor/emoji_mapper.py:116-121 | every Technology keyword is lowercase |
| EmojiMapping.ObjectsAndItemsNonEmpty | EmojiReactor/emoji_mapper.py:123-137 | every Objects & Items keyword has a candidate |
| EmojiMapping.ObjectsAndItemsKeysLowercase | EmojiReactor/emoji_mapper.py:123-137 | every Objects & Items keyword is lowercase |
| EmojiMapping.ColorsNonEmpty | EmojiReactor/emoji_mapper.py:139-148 | every Colors keyword has a candidate |
| EmojiMapping.ColorsKeysLowercase | EmojiReactor/emoji_mapper.py:139-148 | every Colors keyword is lowercase |
| EmojiMapping.TimeAndEventsNonEmpty | EmojiReactor/emoji_mapper.py:150-157 | every Time & Events keyword has a candidate |
| EmojiMapping.TimeAndEventsKeysLowercase | EmojiReactor/emoji_mapper.py:150-157 | every Time & Events keyword is lowercase |
| EmojiMapping.ProfessionsNonEmpty | EmojiReactor/emoji_mapper.py:159-165 | every Professions keyword has a candidate |
| EmojiMapping.ProfessionsKeysLowercase | EmojiReactor/emoji_mapper.py:159-165 | every Professions keyword is lowercase |
| EmojiMapping.UppercaseKeywordNeverMatches | EmojiReactor/emoji_mapper.py:193-200 | a keyword holding an upper-case letter never occurs in the lowered text, which is why the table keeps lowercase keywords |
| EmojiMapping.ReactionListsDistinct | EmojiReactor/emoji_mapper.py:169-175 | the positive, neutral, fallback and negative reaction lists have no repeated emoji |
| EmojiMapping.FallbackPrefix | EmojiReactor/emoji_mapper.py:190 | any prefix of the fallback list is duplicate-free, and non-empty when a positive number of emoji is asked for |
| EmojiMapping.Choice | EmojiReactor/emoji_mapper.py:202 | `random.choice` returns a member of the candidates, and fails exactly when the list is empty |
| EmojiMapping.Sample | EmojiReactor/emoji_mapper.py:211 | `random.sample` fails exactly for a negative or too large size; otherwise it gives that many entries drawn without replacement, duplicate-free when the population is |
| EmojiMapping.HitsSnoc | EmojiReactor/emoji_mapper.py:237-238 | the lexicon positions whose word occurs are those of all but the last word, plus the last one when it occurs |
| EmojiMapping.CountOccurring | EmojiReactor/emoji_mapper.py:237-238 | the count is exactly the number of lexicon positions whose word occurs in the text, at most the lexicon size; it is 0 exactly when no word occurs, and the full size exactly when all occur |
| EmojiMapping.MoodOf | EmojiReactor/emoji_mapper.py:237-245 | positive exactly when more positive than negative words occur, negative exactly when more negative words occur, neutral exactly on a tie |
| EmojiMapping.NeutralWithoutLexiconWords | EmojiReactor/emoji_mapper.py:240-245 | text containing no lexicon word takes the neutral branch (a 0 to 0 tie) |
| EmojiMapping.MoodNeedsAWord | EmojiReactor/emoji_mapper.py:237-243 | the positive branch needs a positive word to occur, the negative branch a negative one |
| EmojiMapping.SentimentEmojis | EmojiReactor/emoji_mapper.py:221-249 | positive: `min(max_emojis, 7)` distinct emoji from the positive pool; negative: exactly the negative list cut to `max_emojis`; tie: `min(max_emojis, 4)` distinct emoji from the neutral pool; a negative size gives the fallback prefix; the result is duplicate-free, at most `max_emojis` long, non-empty when `max_emojis > 0` |
| EmojiMapping.ChoiceProperties | EmojiReactor/emoji_mapper.py:196-206 | one pick per matched keyword gives no more distinct emoji than matched keywords; there is a pick exactly when a keyword matched; each pick is a candidate of a matched keyword |
| EmojiMapping.KeywordOutcomeProperties | EmojiReactor/emoji_mapper.py:193-212 | on the keyword path each returned emoji is a candidate of a keyword occurring in the lowercased text; the result is no longer than the number of matched keywords, and non-empty when `max_emojis > 0` |
| EmojiMapping.PicksProperties | EmojiReactor/emoji_mapper.py:196-209 | the set of picks is empty exactly when no keyword matched, and never larger than the set of matched keywords |
| EmojiMapping.LimitedPicksOutcome | EmojiReactor/emoji_mapper.py:206-212 | `min(len(picks), max_emojis)` of the picks form a keyword-path answer |
| EmojiMapping.MatchKeywords | EmojiReactor/emoji_mapper.py:196-202 | the loop fails exactly when a matched keyword has no candidates; otherwise it yields a duplicate-free list holding exactly one chosen candidate per keyword occurring in the text |
| EmojiMapping.LimitPicks | EmojiReactor/emoji_mapper.py:206-212 | a list no longer than `max_emojis` is kept as it is; a longer one becomes `max_emojis` of its own entries, still duplicate-free; a negative size fails |
| EmojiMapping.EmojiMapper.GetEmojisForContent | EmojiReactor/emoji_mapper.py:177-219 | `max_emojis` defaults to 3; empty text gives `fallback[:max_emojis]`; an empty candidate list on a matched keyword, or a negative size with matches, gives the same; with matches it gives a keyword-path answer; without matches it gives a sentiment answer for the lowercased text; always duplicate-free, at most `max_emojis` long, non-empty when `max_emojis > 0` |
| EmojiMapping.Added | EmojiReactor/emoji_mapper.py:253 | the lowered keyword maps to the new list; every other key and value is unchanged; a table with lowercase keys keeps them |
| EmojiMapping.Removed | EmojiReactor/emoji_mapper.py:258-259 | the lowered keyword is absent afterwards; every other key and value is unchanged; an absent keyword leaves the table as it was; a table with lowercase keys keeps them |
| EmojiMapping.AddThenRemove | EmojiReactor/emoji_mapper.py:251-259 | adding and then removing a keyword is the same as removing it |
| EmojiMapping.AddThenRemoveRestores | EmojiReactor/emoji_mapper.py:251-259 | adding and then removing a new keyword restores the table |
| EmojiMapping.AddedKeywordMatches | EmojiReactor/emoji_mapper.py:193-200 | after adding a keyword, any text containing it in any letter case (a variant equal to it once lowered) matches the stored lowered keyword |
| EmojiMapping.EmptyKeywordMatchesEverything | EmojiReactor/emoji_mapper.py:200 | an added empty keyword matches every text |
| EmojiMapping.EmojiMapper.AddCustomMapping | EmojiReactor/emoji_mapper.py:251-254 | the table becomes `Added(old table, keyword, emojis)`; lowercase keys stay lowercase |
| EmojiMapping.EmojiMapper.RemoveMapping | EmojiReactor/emoji_mapper.py:256-260 | the table becomes `Removed(old table, keyword)`; lowercase keys stay lowercase |
| EmojiMapping.ShadowingKeywordsPresent | EmojiReactor/emoji_mapper.py:93-140 | 'sad', 'beautiful', 'amazing', 'love' and 'red' are keywords of the built-in table |
| EmojiMapping.ShadowedLexiconWords | EmojiReactor/emoji_mapper.py:209-235 | on the sentiment path, which is taken only when no keyword occurs, the lexicon words 'sad', 'beautiful', 'amazing', 'lovely' and 'incredible' cannot occur |
| Text.Lower | EmojiReactor/emoji_mapper.py:193 | lowering keeps the length, lowers each character, and leaves no upper-case letter |
| Text.LowercaseUnchanged | EmojiReactor/emoji_mapper.py:253 | lowering a string with no upper-case letter leaves it unchanged |
| Text.LowerIdempotent | EmojiReactor/emoji_mapper.py:253 | lowering twice is lowering once |
| Text.Contains | EmojiReactor/emoji_mapper.py:200 | substring search returns true exactly when the keyword occurs at some position of the text |
| Text.LowerPreservesOccurs | EmojiReactor/emoji_mapper.py:193-200 | an occurrence survives lowering both strings |
| Text.EmptyOccursEverywhere | EmojiReactor/emoji_mapper.py:200 | the empty string occurs in every text |
| Text.OccursTransitive | EmojiReactor/emoji_mapper.py:200 | a substring of a substring of the text occurs in the text |
| Text.Take | EmojiReactor/emoji_mapper.py:190 | `xs[:n]` is a prefix of `xs` of length `min(n, len(xs))`, or `max(0, len(xs) + n)` for a negative `n` |
| Text.DistinctSubMultiset | EmojiReactor/emoji_mapper.py:211 | a draw without replacement from a duplicate-free list is duplicate-free |
| Text.DistinctCardinality | EmojiReactor/emoji_mapper.py:206 | a duplicate-free list built from a set has the set's size |
| Utils.AnyContains | EmojiReactor/utils.py:22 | true exactly when one of the needles occurs in the text |
| Utils.IsValidImageUrl | EmojiReactor/utils.py:14-22 | false for the empty URL; otherwise true exactly when one of `.png .jpg .jpeg .gif .webp .bmp` occurs in the lowercased URL |
| Utils.ValidUrlExtends | EmojiReactor/utils.py:19-22 | appending anything to a valid URL keeps it valid, so the extension need not be a suffix |
| Utils.ValidUrlIgnoresCase | EmojiReactor/utils.py:20-22 | a URL and its lowercased form get the same verdict |
| Utils.IsValidImageSize | EmojiReactor/utils.py:25-27 | true exactly when the data is at most `max_size` bytes (default 10485760) |
| Utils.ValidImageSizeMonotone | EmojiReactor/utils.py:25-27 | accepted data stays accepted when shortened or checked against a larger limit |
| Utils.TruncateText | EmojiReactor/utils.py:130-134 | text within the limit is returned unchanged; longer text ends in "..." after a prefix of the input, and for a limit of 3 or more has exactly the limit's length |
| Utils.TruncateIdempotent | EmojiReactor/utils.py:130-134 | with a limit of 3 or more, truncating twice is truncating once |
| Utils.TruncateOvershootsSmallLimits | EmojiReactor/utils.py:134 | with a limit below 3 an over-long text comes back longer than the limit |
| Utils.Recent | EmojiReactor/utils.py:100 | the pruned list holds exactly the recorded times with `now - t < time_window`, and is no longer than the original |
| Utils.RecentOfExpired | EmojiReactor/utils.py:100 | when every call is outside the window, nothing is kept |
| Utils.RecentOfSortedIsSuffix | EmojiReactor/utils.py:100 | for time-ordered calls, pruning keeps exactly the newest ones, a suffix of the list |
| Utils.SortedSuffix | EmojiReactor/utils.py:100 | a suffix of a time-ordered list is time-ordered |
| Utils.RecentKeepsOrder | EmojiReactor/utils.py:100-110 | pruning and then recording a `now` no earlier than any recorded time keeps the list time-ordered |
| Utils.Prune | EmojiReactor/utils.py:100 | the filtering loop computes exactly `Recent` |
| Utils.RateLimiter.constructor | EmojiReactor/utils.py:88-91 | a new limiter stores its limit and window and has no recorded calls |
| Utils.RateLimiter.WaitIfNeeded | EmojiReactor/utils.py:93-110 | the calls become the pruned old calls followed by `now`; a wait is computed exactly when at least `max_calls` calls remain, from the oldest one, as `time_window - (now - calls[0]) + 1`, and exceeds one second; with no recent call and `max_calls <= 0` the IndexError leaves the pruned list; without a wait at most `max_calls` calls are recorded; time order is preserved |

## Left out

- `bot.py` (Discord events, downloads, reaction pacing), `image_analyzer.py` (the image-description service client, base64, JSON parsing) and `config.py` (environment variables) are I/O glue and are not part of this model.
- `ImageUtils.download_image` (network), `get_image_info` and `is_animated_gif` (image library) are left out.
- `MessageUtils.extract_urls_from_text` (regular-expression engine) and `format_file_size` (floating-point division and `%.1f` formatting) are left out.
- The logging setup, the environment check and all logging calls are side effects only and are left out.
- The sleep in `RateLimiter.wait_if_needed` is left out, and so is the clock read: the wait is returned and `now` is a parameter.
- Time stamps are exact `real` numbers, not floating-point values.
- The uniformity of `random.choice` and `random.sample` is not modelled: only membership, size and distinctness of the picks.
- The keyword loop visits the table's keys in an arbitrary order rather than dict insertion order. The result of the keyword path, a set, does not depend on the order. The converted list's element order is not modelled beyond its contents.
- `str.lower()` is modelled for ASCII letters only; other characters are left as they are.
- `None` as analysis text is not modelled; the empty string stands for every falsy text.
- EmojiMapping.EmojiMapper.AddCustomMapping: stores the list as a value, so later changes through the caller's reference to the same list are not modelled.
- Exceptions other than IndexError from `random.choice` and ValueError from `random.sample` (for example, errors raised by logging) are not modelled.
