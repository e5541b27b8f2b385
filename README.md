# GiftCatalog core, modelled in Dafny

GiftCatalog is a Telegram Mini App for browsing collectible gifts. This project models its core in Dafny:

- **Points ledger.** Three API handlers use it:
  - `POST /api/channel-check` credits one point for joining a channel.
  - `POST /api/story-share` acknowledges the intent to share a story without writing anything, then records the share and credits one point when asked to verify.
  - `GET /api/user-points` reads a user's balance and completed tasks.

  The store is two tables: `user_points`, with at most one balance row per user, and `user_tasks`, with one row per recorded task. The model has a value-level `Store` with one step function per handler. It also has a `Ledger` class whose methods update the two tables in place, and each method is proved equal to its step function.
- **Gift and collection name helpers** from `src/lib/utils.ts`:
  - the CDN and Fragment spellings of a collection name;
  - the item number and base name of a gift name;
  - the model name among an item's attributes;
  - the database-to-CDN collection name table;
  - the CDN, Fragment, Lottie and Telegram URLs.
- **Attribute filter dialog.** It covers the selection editor (`toggleAttribute`, `isSelected`), the selected-value count, the search over attribute values, the backdrop colour lookup and the model preview path.
- **Collection picker.** It covers the collection image path and its three fallback candidates, the fallback image component that steps through them on load errors, the inline image error handler, and the collection search.

Modules:

| file | module | models |
|---|---|---|
| optional.dfy | `Optional` | the `Option` type |
| text.dfy | `Text` | the JavaScript string operations the code is written with: `trim` and `\s` (the full JavaScript white-space set), `toLowerCase`/`toUpperCase` on ASCII letters, `includes`, `startsWith`/`endsWith`, one-character `split`/`join`, `Number(...)` on decimal text, and the decimal `toString` of an integer |
| ledger.dfy | `PointsLedger` | the store, the three handlers as step functions, and the `Ledger` class |
| ledger_laws.dfy | `PointsLedgerLaws` | what the handlers promise over sequences of requests |
| gift_names.dfy | `GiftNames` | `src/lib/utils.ts` |
| attribute_filter.dfy | `AttributeFilter` | `src/components/filter-dialog.tsx` |
| collection_images.dfy | `CollectionImages` | `src/components/collection-selector.tsx` |

Inputs that come from outside the code are parameters of the model:

- the store's failures: which statement throws;
- the verdict of the membership check;
- the bot token and the development-mode flag;
- the Telegram `getChatMember` reply;
- the current time, as `toISOString` text;
- `encodeURIComponent`, as an uninterpreted function;
- the bundled backdrop list.

## Model

| member | source | states |
|---|---|---|
| PointsLedger.Credit | src/app/api/channel-check/route.ts:104-108 | The balance upsert creates the user's row at 1 or raises it by 1. No other user's balance changes, and the set of users with a row gains exactly this user. |
| PointsLedger.ChatId | src/app/api/channel-check/route.ts:43 | The chat id sent to Telegram is the channel id unchanged, whether or not it starts with '@'. |
| PointsLedger.CheckChannelMembership | src/app/api/channel-check/route.ts:28-58 | Without a bot token the user is not a member. In development mode with a token the user is always a member. Otherwise the user is a member iff the reply is `ok` with status member, administrator or creator. A failed call means not a member. |
| PointsLedger.ChannelStep | src/app/api/channel-check/route.ts:61-124 | A missing user id is a 400 with no store access. A failed lookup is a 500 with the store unchanged. A recorded triple answers `alreadyRewarded` without consulting the membership check or writing. Otherwise the membership check runs: a non-member gets `isMember: false` and nothing changes. For a member, a failed insert is a 500 with nothing written. A failed upsert is a 500 with the row kept and no point. Otherwise the reply is `pointsAwarded: 1`, one channel row is appended and the balance gets the upsert. `success` is true exactly for `alreadyRewarded` and the award. |
| PointsLedger.AtomicChannelStep | src/app/api/channel-check/route.ts:98-108 | The corrected channel handler gives the same reply as the handler as written. Any failure leaves the store exactly as it was. Every other reply comes with exactly the as-written outcome, so an award commits the row and the point together. |
| PointsLedger.DefaultTaskId | src/app/api/story-share/route.ts:37 | The default story task id contains no 'T'. |
| PointsLedger.StoryTaskId | src/app/api/story-share/route.ts:37 | A given non-empty task id is used as is. An absent or empty one becomes the default id taken from the timestamp. |
| PointsLedger.StoryStep | src/app/api/story-share/route.ts:21-112 | A missing user id is a 400 with no store access. A failed lookup is a 500. A recorded triple answers `alreadyCompleted`, with or without `verify`. For a new triple, no `verify` answers that the intent is recorded and writes nothing. With `verify`, any failure is a 500 and a clean run awards the point. The award appends exactly one story row and applies the upsert. Every other reply leaves the store unchanged, so a failed transaction rolls both writes back. `success` is true exactly for the intent and the award. |
| PointsLedger.UserTasksListsHasTask | src/app/api/user-points/route.ts:39-48 | A `{type, id}` pair is listed for a user exactly when a task row holds that triple. |
| PointsLedger.PointsQuery | src/app/api/user-points/route.ts:21-63 | The reply is a 400 iff `user_id` is missing or empty, and a 500 iff a read fails. Otherwise `userId` is `Number(user_id)` and `points` is the balance (0 without a row). The completed tasks hold one `{type, id}` entry per row of the user, so they are exactly the user's recorded triples. The model lists them in insertion order, where the SQL leaves the order open. The store is a plain input, so the query writes nothing. |
| PointsLedger.Ledger.ChannelCheck | src/app/api/channel-check/route.ts:61-124 | The in-place handler leaves the tables and returns the reply that `ChannelStep` gives for the old tables. It keeps triples unique. |
| PointsLedger.Ledger.AtomicChannelCheck | src/app/api/channel-check/route.ts:98-108 | The handler wrapped in a transaction leaves the tables and returns the reply that `AtomicChannelStep` gives for the old tables. |
| PointsLedger.Ledger.StoryShare | src/app/api/story-share/route.ts:21-112 | The in-place handler, with its begin/rollback/commit, leaves the tables and returns the reply that `StoryStep` gives for the old tables. It keeps triples unique. |
| PointsLedger.AppendKeepsTriplesUnique | src/app/api/channel-check/route.ts:69-102 | Because the insert follows a lookup that found no row, appending the row never duplicates a (user, type, id) triple. |
| PointsLedgerLaws.UserTasksAppendRow | src/app/api/user-points/route.ts:40-48 | A new task row adds one `{type, id}` entry to its own user's list, last in the model's insertion order, and changes no other user's list. |
| PointsLedgerLaws.UserTasksConcat | src/app/api/user-points/route.ts:40-48 | In the model's insertion order, the tasks listed for a concatenation of row sequences are those of each part, one after the other. |
| PointsLedgerLaws.RecordAndCreditKeepsMatch | src/app/api/story-share/route.ts:64-81 | Recording a row and crediting its user together keep every balance equal to that user's number of task rows. |
| PointsLedgerLaws.ChannelStepKeepsTriplesUnique | src/app/api/channel-check/route.ts:69-102 | A channel check never records a triple twice. |
| PointsLedgerLaws.StoryStepKeepsTriplesUnique | src/app/api/story-share/route.ts:40-70 | A story share never records a triple twice. |
| PointsLedgerLaws.ChannelStepKeepsCreditsMatched | src/app/api/channel-check/route.ts:98-108 | Unless the upsert fails after the insert, a channel check keeps every balance equal to that user's number of task rows. |
| PointsLedgerLaws.AtomicChannelStepKeepsCreditsMatched | src/app/api/channel-check/route.ts:98-108 | With both writes in one transaction, that equality survives every failure. |
| PointsLedgerLaws.StoryStepKeepsCreditsMatched | src/app/api/story-share/route.ts:60-95 | A story share keeps every balance equal to that user's number of task rows, whatever fails. |
| PointsLedgerLaws.ChannelPartialWriteLosesPoint | src/app/api/channel-check/route.ts:98-108 | Counterexample: when the upsert fails after the insert, the row has no point behind it. A retry is then answered `alreadyRewarded` and the balance stays 0. |
| PointsLedgerLaws.RecordedTaskStaysRecorded | src/app/api/channel-check/route.ts:98-102 | A channel check, as written or with a transaction, only appends rows, so a recorded triple stays recorded. |
| PointsLedgerLaws.StoryKeepsRecordedTask | src/app/api/story-share/route.ts:64-81 | A story share only appends rows, so a recorded triple stays recorded. |
| PointsLedgerLaws.ChannelRepeatCreditsOnce | src/app/api/channel-check/route.ts:69-115 | Two channel checks for the same user and channel credit at most one point. After an award or an `alreadyRewarded`, the second check is `alreadyRewarded`, writes nothing and skips the membership check. |
| PointsLedgerLaws.StoryIntentVerifyVerify | src/app/api/story-share/route.ts:40-103 | Intent, then verify, then verify again, all with the same task id: the first call writes nothing, the second awards, the third is `alreadyCompleted`, and the balance rises by exactly one. |
| PointsLedgerLaws.QueryAfterChannelAward | src/app/api/user-points/route.ts:30-54 | After a channel award, the points query shows the balance one higher. The list's multiset gains exactly the channel task, and in the model's insertion order it comes last. |
| PointsLedgerLaws.QueryForNewUser | src/app/api/user-points/route.ts:36-48 | A user with no rows reads as 0 points and no completed tasks. |
| PointsLedgerLaws.DefaultTaskIdIsDate | src/app/api/story-share/route.ts:37 | For an ISO timestamp `date + "T" + rest`, the default task id is `date`. |
| GiftNames.CapitalizedJoinIsTitleCase | src/lib/utils.ts:64-71 | Splitting on spaces, capitalizing the words and joining them again equals the character-by-character title case. The first word is capitalized only when the text starts at a word start. |
| GiftNames.FormatCollectionNameForCdnIsTitleCase | src/lib/utils.ts:64-71 | Capitalizing each space-separated word and joining again gives the title case of the trimmed, lower-cased name, as defined by an independent character-by-character definition. |
| GiftNames.FormatCollectionNameForCdnShape | src/lib/utils.ts:64-71 | The CDN spelling has the length of the trimmed, lower-cased text. Its first character and every character after a space are upper-cased, and every other character is as in that text. Lower-casing the result gives the text back. |
| GiftNames.RemoveSpaces | src/lib/utils.ts:78 | The result contains no white space, is no longer than the input, and has no upper-case letter if the input had none. |
| GiftNames.FormatCollectionNameForFragment | src/lib/utils.ts:77-79 | The Fragment spelling has no white space and no upper-case ASCII letter. |
| GiftNames.FragmentNameIgnoresTrim | src/lib/utils.ts:77-79 | The Fragment spelling is the lower-cased name with every white-space character removed, wherever it occurs. |
| GiftNames.FragmentNameIdempotent | src/lib/utils.ts:77-79 | Formatting a Fragment name twice is the same as formatting it once. |
| GiftNames.ExtractItemNumberSpec | src/lib/utils.ts:84-90 | With a '#', the item number is the trimmed text between the first and second '#' and contains no '#'. Without one, it is the fallback id's decimal text, which `Number` reads back as that id, or "1" when no fallback is given. |
| GiftNames.GetBaseNameSpec | src/lib/utils.ts:95-97 | The base name is the trimmed text before the first '#'. It contains no '#', and taking the base name again changes nothing. |
| GiftNames.FirstModelAttribute | src/lib/utils.ts:106-110 | The result is the index of the first Type, Model or Color attribute, or nothing when there is none. |
| GiftNames.GetModelNameFromAttributes | src/lib/utils.ts:103-113 | When the first Type/Model/Color attribute has a non-empty value, that value is the result; when its value is missing or empty, the result is "Default". Without an array, or without such an attribute, the result is "Default". Any result other than "Default" is that first attribute's value, and the result is never empty. |
| GiftNames.FindKey | src/lib/utils.ts:123-124 | The result is the index of the first table entry whose key equals the normalised name, or nothing when no key does. |
| GiftNames.FindPartial | src/lib/utils.ts:128-132 | The result is the index of the first entry, in table order, whose key contains the normalised name or is contained in it, or nothing when there is none. |
| GiftNames.LookupCdnName | src/lib/utils.ts:118-136 | Against any name table, the result follows the fixed order. It is the name of the first entry whose key equals the normalised name. Without one, it is the name of the first entry, in table order, whose key contains the normalised name or is contained in it. Without that, it is the formatted CDN spelling. So it is always a table name or that spelling. |
| GiftNames.MapCollectionNameToCdn | src/lib/utils.ts:118-136 | Over the collection name table, the same order: the exact key first, then the first partial match, then the formatted CDN spelling. |
| GiftNames.ExactKeyWins | src/lib/utils.ts:122-125 | Against any table, a name whose normalised form is the key of entry i maps to the name of an entry at or before i with that same key, even when an earlier key would match partially. |
| GiftNames.PartialMatchBeforeFallback | src/lib/utils.ts:127-132 | Against any table, when no key is exact and the key of entry i matches partially, the result is the name of entry i or of an earlier entry, never the formatted fallback. |
| GiftNames.BlankNameGetsFirstEntry | src/lib/utils.ts:127-132 | Against any table with at least one entry and no empty key, a blank or white-space-only name maps to the first entry's name. |
| GiftNames.TableKeysNonEmpty | src/lib/utils.ts:12-58 | The name table is not empty, its first entry names "Astral Shard", and none of its keys is empty. |
| GiftNames.NoTableKeyIsInherited | src/lib/utils.ts:12-58 | No key of the name table is "constructor" or "__proto__". |
| GiftNames.BlankNameMapsToFirstEntry | src/lib/utils.ts:118-136 | A blank or white-space-only name maps to "Astral Shard", because every key contains the empty normalised name. |
| GiftNames.CdnImageUrl | src/lib/utils.ts:141-147 | The CDN image URL starts with the models base, the encoded collection name from the corrected own-key lookup, and "/png/". It ends with the encoded model name and ".png". Nothing lies between the two. |
| GiftNames.FragmentImageUrl | src/lib/utils.ts:152-155 | The Fragment image URL starts with the Fragment base and the slug `<fragment name>-<item number>`, and ends with the chosen extension, which defaults to webp. Nothing lies between the two. |
| GiftNames.FragmentLottieUrl | src/lib/utils.ts:160-163 | The Lottie URL starts with the Fragment base and the same slug, and ends with ".lottie.json". Nothing lies between the two. |
| GiftNames.TelegramGiftLink | src/lib/utils.ts:168-171 | The Telegram link is the `t.me/nft/` base followed by the same slug. Nothing else is added. |
| GiftNames.LinksIgnoreCaseAndSpaces | src/lib/utils.ts:152-171 | Collection names that differ only in letter case and white space give the same image, Lottie and Telegram links. |
| GiftNames.LookupCdnNameAsWritten | src/lib/utils.ts:123-124 | Against any table, the lookup through `in` agrees with the own-key lookup on every name whose normalised form is not an inherited lower-case property of `Object.prototype`. |
| GiftNames.MapCollectionNameToCdnAsWritten | src/lib/utils.ts:123-124 | Lookup with JavaScript's `in`: it agrees with the own-key lookup on every name whose normalised form is not an inherited lower-case property of `Object.prototype`. |
| GiftNames.InheritedNamesEscapeTable | src/lib/utils.ts:123-124 | Against a table with no inherited property name as a key, every name that normalises to "constructor" or "__proto__" yields the inherited property instead of a table entry. |
| GiftNames.ConstructorEscapesTable | src/lib/utils.ts:123-124 | Counterexample: the name "constructor" passes the `in` test and returns the inherited `Object.prototype.constructor` instead of a CDN name. |
| AttributeFilter.RemoveAll | src/components/filter-dialog.tsx:212 | The result keeps every element other than the value, with its multiplicity, and drops every copy of the value. |
| AttributeFilter.RemoveAllLength | src/components/filter-dialog.tsx:212 | The result is shorter than the list by exactly the number of copies of the value. |
| AttributeFilter.RemoveAllConcat | src/components/filter-dialog.tsx:212 | Filtering a concatenation filters each part and keeps their order. |
| AttributeFilter.ToggleAttribute | src/components/filter-dialog.tsx:201-223 | A toggle flips `isSelected` for the pair, and every other trait keeps its list. An unselected value is appended at the end of its trait's list, which is created if absent. A selected value is removed with all its copies, and an emptied trait is deleted. The toggled trait never maps to an empty list, and a selection without empty lists stays without them. The result equals `Toggled`. |
| AttributeFilter.ToggleTwiceRestores | src/components/filter-dialog.tsx:201-223 | Toggling an unselected value twice restores exactly the original selection, given a selection without empty lists. |
| AttributeFilter.TotalSelectedRemove | src/components/filter-dialog.tsx:321-324 | The total is the sum of all list lengths, whichever trait is counted first. |
| AttributeFilter.TotalAfterToggle | src/components/filter-dialog.tsx:321-324 | Selecting a value raises the total by one. Deselecting it lowers the total by the number of its copies. |
| AttributeFilter.EmptySelectionCountsZero | src/components/filter-dialog.tsx:321-324 | The empty selection counts 0. |
| AttributeFilter.FilterAttributesByQuery | src/components/filter-dialog.tsx:327-343 | An empty query keeps all values and matches. Otherwise the kept values are exactly those whose name contains the query case-insensitively, each with its original data. The trait matches iff a value matches or its own name does. For a non-empty query, `isTraitMatch` records whether the trait name itself matches. |
| AttributeFilter.LongerQueryNarrows | src/components/filter-dialog.tsx:330-333 | A query that contains another keeps no more values than that shorter query, the empty query included. |
| AttributeFilter.FilteredAttributes | src/components/filter-dialog.tsx:346-348 | Every shown trait matches, and every matching trait is shown. Each shown view is the view of an input trait. With an empty query every trait is shown. |
| AttributeFilter.FilteredAttributesOne | src/components/filter-dialog.tsx:346-348 | A single trait is shown, as its view, exactly when that view has matches; with an empty query it always is. |
| AttributeFilter.FilteredAttributesConcat | src/components/filter-dialog.tsx:346-348 | The traits shown for a concatenation are those shown for each part, in order, so `map` then `filter` keeps the traits' order and multiplicity. |
| AttributeFilter.FindBackdrop | src/components/filter-dialog.tsx:70-73 | The result is the index of the first backdrop whose name equals the given name ignoring ASCII case, or nothing. |
| AttributeFilter.GetBackdropColor | src/components/filter-dialog.tsx:70-73 | Without a name match the colour is "#ccc". Otherwise it is the centre colour of the first match. |
| AttributeFilter.GetModelImagePath | src/components/filter-dialog.tsx:110-137 | The path is empty iff no gift name is set. Otherwise it starts with `/Gift Model Preview/` and the encoded, lower-cased gift name, and ends with the encoded model name and ".png". Nothing lies between the two. |
| CollectionImages.KeepAlnum | src/components/collection-selector.tsx:19 | Only ASCII letters and digits remain. |
| CollectionImages.KeepAlnumChar | src/components/collection-selector.tsx:19 | One character is kept iff it is an ASCII letter or digit. |
| CollectionImages.KeepAlnumConcat | src/components/collection-selector.tsx:19 | The replacement works part by part over a concatenation, so the kept characters stay in order. |
| CollectionImages.SafeName | src/components/collection-selector.tsx:19 | The slug has only lower-case letters and digits. |
| CollectionImages.SafeNameConcat | src/components/collection-selector.tsx:19 | The slug of a concatenation is the concatenation of the slugs. One character gives its lower case when it is a letter or digit, and nothing otherwise. |
| CollectionImages.SafeNameIdempotent | src/components/collection-selector.tsx:19 | Taking the slug of a slug changes nothing. |
| CollectionImages.CollectionImage | src/components/collection-selector.tsx:17-21 | The path starts with `/Gift Collection Images/` and the slug, and ends with the extension, which defaults to jpg. Nothing lies between the two. |
| CollectionImages.CacheSuffix | src/components/collection-selector.tsx:25 | The suffix is empty iff `unique` is absent or empty. Otherwise it is exactly `?t=` followed by `unique`. |
| CollectionImages.ImageFallbacks | src/components/collection-selector.tsx:23-31 | There are exactly three candidates: the jpg, the png and the generic logo, in that order, each with the same suffix. |
| CollectionImages.CacheSuffixOnAllOrNone | src/components/collection-selector.tsx:23-31 | Without `unique` the candidates are the plain paths. With it, all three end in `?t=<unique>`. |
| CollectionImages.ErrorsFromLast | src/components/collection-selector.tsx:310-313 | Once on the last candidate, every error is reported and the index stays put. |
| CollectionImages.ErrorsFromFirst | src/components/collection-selector.tsx:300-313 | After k errors from the start, the index is min(k, 2) and failure has been reported max(k - 2, 0) times. |
| CollectionImages.FallbackImage.constructor | src/components/collection-selector.tsx:301 | The index starts at 0. The first candidate shown is the jpg with the cache suffix. |
| CollectionImages.FallbackImage.OnError | src/components/collection-selector.tsx:310-313 | One error advances the index by one unless it is on the last candidate, where `onError` is reported instead. The index stays in range and the props are unchanged. The next candidate shown is the one after the old one, or the same one on the last. |
| CollectionImages.FallbackImage.UpdateProps | src/components/collection-selector.tsx:303 | The index resets to 0 iff the name or `unique` changes. |
| CollectionImages.InlineOnErrorCycles | src/components/collection-selector.tsx:191-198 | Counterexample: jpg goes to png, png goes to the logo, and the logo, which also ends in ".jpg", goes back to png. |
| CollectionImages.InlineFallbackStops | src/components/collection-selector.tsx:191-198 | The corrected handler goes from jpg to png to the logo, then stops. |
| CollectionImages.FilterByName | src/components/collection-selector.tsx:148-150 | Each gift occurs in the result as often as in the input if its name contains the query case-insensitively, and otherwise not at all. |
| CollectionImages.FilterByNameAppend | src/components/collection-selector.tsx:148-150 | The filter keeps order: filtering a concatenation concatenates the filtered parts. |
| CollectionImages.FilteredCollections | src/components/collection-selector.tsx:146-150 | A blank query shows the whole list. Otherwise the list is filtered in order, keeping exactly the gifts whose name contains the untrimmed query case-insensitively. |

## Left out

- The MySQL pool, environment variables and SQL text are replaced by the two-table `Store`. Any thrown error becomes a store fault parameter, answered with a 500.
- Concurrency is not modelled. Two parallel requests can both pass the lookup before either inserts, and `user_tasks` has no unique constraint on the triple, so both can credit. Idempotence is proved for sequential requests only.
- The HTTP call to Telegram and its URL are not modelled. Its reply is the `getChatMember` parameter of `CheckChannelMembership`. The channel handler takes the membership verdict as a boolean.
- JSON request typing is not modelled. User ids and channel ids are strings, and falsy means absent or empty; a numeric id 0 is not modelled. A numeric `channelId`, as Telegram chat ids often are, has no `startsWith`: `checkChannelMembership` throws, and its catch answers "not a member" outside development mode. The model has no such input.
- An absent `channelId` is not modelled. The driver refuses an undefined bind value, which would be a 500.
- A malformed JSON body is not modelled; it throws and would be a 500.
- `Number(...)`: ParseNumber reads decimal text only. The `0x`, `0b` and `0o` prefixes, "Infinity", exponents and fractions are not modelled.
- Case mapping covers ASCII letters only; full Unicode case mapping is not modelled.
- `encodeURIComponent` is an uninterpreted parameter; percent-encoding is not modelled.
- GiftNames.CdnImageUrl: the URL is built on the corrected own-key lookup `MapCollectionNameToCdn`. `getCdnImageUrl` (src/lib/utils.ts:141-147) calls the lookup as written, so for a name that normalises to "constructor" or "__proto__" the source encodes the inherited `Object` value, whereas the model encodes the formatted name or a table entry. The difference is the utils.ts:123-124 finding; `MapCollectionNameToCdnAsWritten`, `InheritedNamesEscapeTable` and `ConstructorEscapesTable` model the as-written lookup.
- GiftNames.ExtractItemNumberSpec: the fallback id is an unbounded integer printed in plain decimal digits. A fractional or NaN `fallbackId` is not modelled. JavaScript's `toString` on a number switches to exponent form from 1e21 and loses integer precision beyond 2^53; neither is modelled.
- AttributeFilter.FilterAttributesByQuery: `isTraitMatch` is `None` where the source leaves it `undefined`. Object key order is not modelled: values are a `map`, and traits are a sequence in `Object.entries` order.
- AttributeFilter.ToggleAttribute: the selection is an own-key map. In the source it is a plain object, so a trait type naming an `Object.prototype` property ("constructor", "toString", "__proto__" and the like) reads an inherited, truthy value that has no `includes`. `isSelected` (src/components/filter-dialog.tsx:197) and `toggleAttribute` (src/components/filter-dialog.tsx:206-211) then throw a TypeError. The model reports such a pair as unselected and toggles it like any other key. Trait types come from the gift attributes the API returns.
- AttributeFilter.ToggleTwiceRestores: it assumes no trait maps to an empty list. An initial selection holding an empty list loses that key after two toggles.
- AttributeFilter.TotalSelectedRemove: the total is a ghost sum over the map, not the `reduce` in `Object.values` order. The two agree because addition is commutative.
- CollectionImages.FilterByName: order preservation is stated through concatenation, not as an explicit index-increasing embedding.
- CollectionImages.InlineOnErrorCycles: the browser's resolution of `img.src` to an absolute URL is not modelled. It keeps the ".jpg"/".png" ending the handler tests.
- PointsLedger.PointsQuery: the task SELECT has no ORDER BY, so MySQL may return the rows in any order, for example index order on (user, type, id). The model lists them in insertion order. The order-free promise is the multiset, as in PointsLedgerLaws.QueryAfterChannelAward.
- PointsLedger.PointsQuery: `Number(user_id)` is a double, and ids beyond 2^53 lose precision. ParseNumber returns the exact integer.
- PointsLedger.HasTask: keys compare as exact strings. The tables declare no collation, so MySQL's default case-insensitive comparison applies. A channel check for "@Chan" after "@chan" answers `alreadyRewarded` in MySQL, but the model awards a second point. The same holds for story task ids and user ids.
- PointsLedger.ChannelStep: balances are unbounded. The `points INT` column is 32-bit and overflows past 2147483647, and `channelId` longer than the column width is rejected. Neither limit is modelled.
- PointsLedger.StoryStep: `task_id VARCHAR(50)` rejects a longer story task id under strict mode, giving a 500. The model accepts ids of any length and awards.
- `cn`, the gift-image and debug-cdn routes, the user-rank route and the Telegram web-app bridge are not part of this model.
- UI timers, `localStorage`, SWR fetches, Lottie animations and the five-click debug toggle are not part of this model.
- Two mismatches are noted but not modelled:
  - The `user_tasks` schema in `scripts/create-tables.js` has no `points_awarded` column, yet the channel handler inserts one.
  - The Tasks screen advertises more points than the handlers credit: each handler credits exactly 1.

## Findings

| source | as written | input that shows it | evidently intended | confidence | as-written member | corrected member |
|---|---|---|---|---|---|---|
| src/app/api/channel-check/route.ts:98-108 | The `user_tasks` insert and the balance upsert are separate statements with no transaction. | A member's first check where the upsert fails after the insert: the row is kept, no point is credited, and every retry answers `alreadyRewarded`. | Both writes commit or roll back together, as in the story handler. | medium (not executed) | PointsLedgerLaws.ChannelPartialWriteLosesPoint | PointsLedger.AtomicChannelStep |
| src/lib/utils.ts:123-124 | `normalizedName in collectionNameMap` is also true for properties inherited from `Object.prototype`. | The collection name "constructor" returns the `Object` constructor function instead of a string. | Look up only the table's own keys. | high (not executed) | GiftNames.ConstructorEscapesTable | GiftNames.MapCollectionNameToCdn |
| src/components/collection-selector.tsx:191-198 | The inline `onError` sends any src ending in ".jpg" to the png, and the generic logo's path also ends in ".jpg". | A collection with neither a jpg nor a png, when the logo also fails to load: the image alternates png, logo, png, ... without end. | Try jpg, png and then the logo once each, then stop. | medium (not executed) | CollectionImages.InlineOnErrorCycles | CollectionImages.InlineFallbackStops |
