# Weibo user crawler, modelled in Dafny

`1.py` is a single-file crawler for Weibo user profiles. A `Weibo` object holds
a list of uids (`uid_list`) and a target number of users (`user_num`). For each
uid in the list, in order, `start`:

1. resets the current user (`initialize_info`);
2. while the list is shorter than `user_num`, appends the uids linked from the
   user's fans page that are not listed yet (`get_following`);
3. fetches the profile (`get_user_info`). A status other than 200 ends the
   process (`sys.exit`); a payload that is not `ok` makes `start` return.
   Otherwise the record is built:
   - `id`, `screen_name` and `gender` first;
   - nine extended labels cleared to `""`, then filled from the first two card
     groups of a second request;
   - the three counters through `string_to_int`;
   - nine more profile fields;
   - everything cleaned by `standardize_info`;
   - the record appended as a row to `users.csv` (`user_to_csv`,
     `insert_or_update_user`);
4. stops once `num` reaches `user_num`. Any exception ends the crawl through
   `start`'s `except`.

The model has seven modules:

- `Values` — JSON values and table rows.
- `OrderedDicts` — `OrderedDict` as a value: the key order plus the map.
- `Normalizer` — `string_to_int`.
- `Sanitizer` — `standardize_info`.
- `UserRecord` — the record `get_user_info` builds. The clearing and merge loops
  are methods, each proved equal to a function.
- `Store` — `insert_or_update_user`. The users file is its list of rows, and
  `None` is a file that does not exist.
- `Crawler` — `get_following`, the per-uid outcome of `get_user_info`, the crawl
  loop as the recursive function `Crawl`, and the class `Weibo`. Its methods
  update `uid_list`, `uid`, `user` and the users file in place, and
  `Weibo.Start` is proved to end in the state `Crawl` describes.

Things outside the program are parameters:

- The network is `net: nat -> Fetch`, what the requests for the uid at list
  position `i` return. Each position is fetched at most once.
- The console encoding is `encodable: char -> bool`, the characters
  `encode(..., "ignore")` keeps.

Some behaviours of the code that a reader might not expect, and which the
model keeps:

- The seed list is copied as given. Duplicate seeds are not collapsed (1.py:42-47).
- `get_following` runs before the profile request (1.py:211-217). A uid that
  ends the crawl (banned, not `ok`, or raising) has already had its followers
  appended; `Crawl` returns the grown list in that case.
- A payload that is not `ok` ends the crawl (1.py:158-160, 217-218).
- An unparseable counter raises, and the crawl ends through `start`'s `except`
  (1.py:172, 224-225). It does not default to 0.
- The record keys are the source's own names: `id` for the uid, the profile's
  keys (among them `avatar_hd`, `urank` and `mbrank`), and `en_list`'s labels
  for the card fields (among them `sunshine`).
- Counters are not forced to be non-negative. `Normalizer.NeverNegative` shows
  that only a leading `-` yields a negative count. Booleans pass through
  `string_to_int` unchanged.
- The last card naming a field wins, even when its content is empty (1.py:133-137).
- Only the first row written by a call gains the empty trailing column, and the
  header row does not (1.py:22-27). Every data row gains it, because
  `user_to_csv` writes one row per call.

## Model

| member | source | states |
|---|---|---|
| OrderedDicts.ODict.Put | 1.py:107-153 | assigning to a present key keeps the key order and changes only that value; assigning to a new key appends it |
| OrderedDicts.ODict.PutValid | 1.py:107-153 | an assignment keeps the keys distinct and equal to the mapped ones |
| OrderedDicts.PutAllLast | 1.py:138-153 | in a sequence of assignments, the last one to a key decides its value |
| OrderedDicts.PutAllNext | 1.py:107-110 | assigning keys of the next ranks appends them in order with their values and keeps the others |
| OrderedDicts.PutEachPresent | 1.py:126-127 | reassigning keys already present keeps the key order |
| Normalizer.IntLiteral | 1.py:172 | `int(s)` succeeds exactly on an optional sign followed by digits; the result is negative only after a `-` |
| Normalizer.StringToInt | 1.py:162-172 | ints and bools come back unchanged; every result is an int or a bool; a list or another non-string raises |
| Normalizer.PlainValue | 1.py:172 | a plain digit string is read as the number it denotes |
| Normalizer.ParseShow | 1.py:172 | reading back the decimal numeral of any natural number gives that number |
| Normalizer.SignedLiteral | 1.py:172 | a `-` before a digit string gives the negated number, a `+` the number itself |
| Normalizer.ParseShowSigned | 1.py:172 | `int("-N")` is -N and `int("+N")` is N for every natural number N |
| Normalizer.DecimalFloat | 1.py:169 | `float("W.F")` is the number formed by the digits of W and F, divided by 10 to the length of F |
| Normalizer.DecimalTenThousandValue | 1.py:168-169 | for all digit strings W and F, not both empty, "W.F万" is W.F * 10000 truncated toward zero |
| Normalizer.DecimalHundredMillionValue | 1.py:170-171 | for all digit strings W and F, not both empty, "W.F亿" is W.F * 100000000 truncated toward zero |
| Normalizer.DottedTenThousandPlusRaises | 1.py:166-167 | any numeral holding a `.` before 万+ raises, because only zeros are appended before `int` |
| Normalizer.TenThousandPlusValue | 1.py:166-167 | "N万+" is N * 10000 |
| Normalizer.TenThousandValue | 1.py:168-169 | "N万" is N * 10000 for whole N |
| Normalizer.HundredMillionValue | 1.py:170-171 | "N亿" is N * 100000000 for whole N |
| Normalizer.DecimalTenThousand | 1.py:168-169 | a decimal before 万 is scaled: "1.2万" is 12000 |
| Normalizer.DecimalTenThousandPlusRaises | 1.py:166-167 | "1.5万+" raises, because only zeros are appended before `int` |
| Normalizer.ScaledSign | 1.py:169-172 | the scaled value keeps the sign of the numeral |
| Normalizer.NeverNegative | 1.py:162-172 | a string without a leading `-` never yields a negative count |
| Sanitizer.Clean | 1.py:184-186 | the result is no longer than the input, holds only kept characters taken from it, and holds every kept character the input has |
| Sanitizer.CleanChar | 1.py:184-186 | one character is kept as it is when it is no zero-width space and encodable, and dropped otherwise |
| Sanitizer.CleanConcat | 1.py:184-186 | cleaning a concatenation cleans each part: characters are only dropped, never reordered or replaced |
| Sanitizer.CleanIdempotent | 1.py:184-186 | cleaning a cleaned string changes nothing |
| Sanitizer.StandardizeSpec | 1.py:174-188 | raises exactly when a value is neither string, int, bool nor list; otherwise keeps the keys and their order, leaves non-strings alone, cleans every string, and leaves no droppable character |
| Sanitizer.Standardize | 1.py:176-188 | the in-place loop over the entries yields exactly `StandardizeSpec` |
| Sanitizer.StandardizeIdempotent | 1.py:174-188 | standardizing a standardized record changes nothing |
| Sanitizer.StandardizeGet | 1.py:176-187 | the value under each key afterwards is the cleaned original value |
| UserRecord.FieldOf | 1.py:134-136 | a card writes a field exactly when its `item_name` is one of the nine labels |
| UserRecord.LabelTable | 1.py:114-136 | each label writes the field listed beside it in `en_list` |
| UserRecord.SchoolLabelsShareEducation | 1.py:114-125 | exactly the four school labels write `education` |
| UserRecord.MergeCards | 1.py:133-137 | the merge loop yields `MergeSpec` of the cards |
| UserRecord.MergeLastWins | 1.py:133-137 | the last card naming a field decides its value |
| UserRecord.MergeUntouched | 1.py:133-137 | a field no card names keeps its value |
| UserRecord.ClearFields | 1.py:126-127 | the clearing loop sets each listed field to `""` in turn |
| UserRecord.ClearedKeys | 1.py:126-127 | after clearing, the record holds its first nine keys in order; the repeated `education` is added once |
| UserRecord.HeadKeys | 1.py:107-110 | the record starts with `id`, `screen_name`, `gender`, holding the uid and the profile values or `""` |
| UserRecord.MergedFields | 1.py:107-137 | after the merge, the record holds nine keys in order, and the first three are unchanged |
| UserRecord.TailKeys | 1.py:138-153 | the twelve later assignments append their keys in order, giving all 21 keys |
| UserRecord.UnsanitizedFields | 1.py:105-153 | the record is built exactly when all three counters parse; it then holds the 21 keys in order, the counters as `string_to_int` returns them, and each later field as the profile gives it or its default |
| UserRecord.BuildUserInfo | 1.py:105-154 | the imperative build yields `BuildSpec`: `None` when a counter or the cleaning raises |
| UserRecord.BuildKeys | 1.py:105-154 | a stored record has the 21 keys in header order, and no string in it holds a character the cleaning drops |
| UserRecord.BuildHeadFields | 1.py:108-110 | the stored id, name and gender are the cleaned uid and profile values |
| UserRecord.BuildCounters | 1.py:138-144 | the stored counters are what `string_to_int` returns |
| UserRecord.BuildProfileFields | 1.py:145-153 | the nine later fields are the cleaned profile values or their defaults (`""`, 0, `False`, -1) |
| UserRecord.BuildExtendedLast | 1.py:133-137 | an extended field holds the cleaned content of the last card naming it |
| UserRecord.BuildExtendedUnset | 1.py:126-137 | an extended field no card names is stored as `""` |
| UserRecord.BuildRaisesOnCounter | 1.py:138-144 | a counter `string_to_int` cannot parse makes the build raise |
| UserRecord.BuildSucceeds | 1.py:105-188 | a record is stored exactly when the three counters parse and no value the record copies is `None`, a float or an object, counting only the last card that names each field, since earlier ones are overwritten; the profile's other keys do not matter |
| Store.InsertOrUpdateUser | 1.py:17-28 | empty `result_data` raises before the file is opened; an existing file gains the rows; a new file gets the header row first |
| Store.WriteAllAppends | 1.py:17-27 | writing rows one call at a time to an existing file appends them padded and in order, with no second header |
| Store.WriteAllFromScratch | 1.py:17-27 | starting without a file, the header row is written once, at the top, followed by the padded rows in order |
| Crawler.AppendNew | 1.py:201-203 | the list grows by at most the number of uids found |
| Crawler.AppendNewExtends | 1.py:201-203 | the listed uids stay in place |
| Crawler.AppendNewCovers | 1.py:201-203 | every found uid is listed afterwards, and every appended uid was found |
| Crawler.AppendNewFresh | 1.py:201-203 | no appended uid was listed before it |
| Crawler.AppendNewOrder | 1.py:201-203 | appended uids keep the order in which they were first found |
| Crawler.AppendNewDistinct | 1.py:201-203 | a list without repeats stays without repeats |
| Crawler.UserRow | 1.py:87-92 | the row has one cell per record key |
| Crawler.VisitOf | 1.py:96-160 | banned exactly on a status other than 200; id error exactly on 200 and not `ok`; raises exactly when the build raises; a stored row has one cell per header |
| Crawler.SavedRowColumns | 1.py:64-94 | cell k of a stored row holds the record's k-th field, and the first cell is the cleaned uid |
| Crawler.Grown | 1.py:211-212 | the list never shrinks, and a list of at least `user_num` uids is left unchanged |
| Crawler.Crawl | 1.py:205-225 | the list never shrinks; the users stored fit in the positions walked, and a stop happens at a position inside the list |
| Crawler.CrawlExtends | 1.py:209-212 | the crawl only appends to the list |
| Crawler.CrawlSavesInOrder | 1.py:209-221 | every position the crawl got past stored its record |
| Crawler.CrawlStopsAt | 1.py:217-218 | a stop happens on the visit at the first position after the stored ones |
| Crawler.CrawlWritesInOrder | 1.py:209-221 | the users file gains exactly the rows of the stored records, in list order |
| Crawler.CrawlEnds | 1.py:209-225 | an exhausted crawl walked the whole list; `Limit` comes with exactly `user_num` users; a stop comes from a visit that stored nothing |
| Crawler.CrawlBounded | 1.py:211-221 | a list of at least `user_num` uids never grows; from below `user_num`, at most `user_num` users are stored; with `user_num` already reached, the loop never breaks on it |
| Crawler.BanStops | 1.py:102-104 | a ban ends the crawl at once, with nothing stored for that uid |
| Crawler.IdErrorStops | 1.py:158-160 | a profile that is not `ok` ends the crawl with nothing stored for that uid |
| Crawler.CrawlKeepsDistinct | 1.py:195-221 | a uid list without repeats has none after any number of `get_following` calls in the crawl; seeds are not deduplicated, so this needs distinct seeds |
| Crawler.SeedListLongEnough | 1.py:209-221 | with `user_num` between 1 and the seed count, the list never grows and at most `user_num` users are stored |
| Crawler.Weibo.constructor | 1.py:32-49 | the list is the configured one as given; `user_num` defaults to its length; no uid and an empty user |
| Crawler.Weibo.InitializeInfo | 1.py:190-193 | sets the uid and empties the user, changing nothing else |
| Crawler.Weibo.GetFollowing | 1.py:195-203 | the list becomes `AppendNew` of the uids found; nothing else changes |
| Crawler.Weibo.UserToCsv | 1.py:57-94 | the users file gains the record's row through `insert_or_update_user` |
| Crawler.Weibo.GetUserInfo | 1.py:96-160 | returns `VisitOf` for the current uid; on success, stores `BuildSpec`'s record and writes its row; otherwise changes neither the user nor the file |
| Crawler.Weibo.Step | 1.py:210-221 | one loop pass sets the uid to the list entry at the position, grows the list as `Grown` says, and stores `BuildSpec`'s record and writes its row when the visit saves, otherwise leaves an empty user and the file unchanged; it either ends the crawl in the state `Crawl` describes, or leaves a state from which `Crawl` continues at the next position |
| Crawler.Weibo.Start | 1.py:205-225 | the final list, users file and outcome are those of `Crawl` from position 0 |

## Left out

- HTTP requests, `get_json`, the fans page's XPath and regular expression, and the random `sleep`: the network is the parameter `net`, and the fans page is given by the uids it yields.
- `get_config`, `main` and the configuration file: the constructor takes `user_id_list` and the optional `user_num` directly. The cookie, the user agent and the unused path fields are not modelled.
- The file system: the users file is modelled by its rows. Directories, paths, the UTF-8 byte-order mark, CSV quoting and `print` output are left out.
- The difference between `sys.exit` and an exception: both end the crawl, as the outcomes `Banned` and `Raised`. Process exit itself is not modelled.
- `Normalizer.StringToInt`: `float` arithmetic is exact here, scaled and truncated toward zero. Binary rounding (which can make `int(float("1.15") * 10000)` one less) is not modelled.
- `Normalizer.IntLiteral`: whitespace, underscores, non-ASCII digits, exponents, `inf` and `nan` are treated as raising, though Python's `int` and `float` accept some of them.
- Malformed payloads: a missing `ok`, `data`, `userInfo` or `card_group` key, or a card that is not an object, would raise `KeyError`/`AttributeError` in the source. The model assumes the payloads have this shape; a card's `item_name` that is not a string counts as no label.
- The Python 2 `unicode` branch of `user_to_csv`: Python 3 leaves values as they are.
- The console encoding is the predicate `encodable` over characters; the encodings themselves are not modelled.
- Exceptions raised inside `get_following` (network errors) are left out with the network.
