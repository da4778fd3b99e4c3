# wp-f180 block: a verified model of its core logic

The wp-f180 block is a WordPress block plugin. It embeds a faculty member's
activity data from Interfolio Faculty180 into a page. The PHP side registers two
REST routes:

- `/users` returns the Faculty180 users who are also administrators of the site;
- `/userdata/<id>` returns one user's activity data, grouped by section.

Both routes send a signed request upstream. The editor side fetches these routes
and builds a user picker and a section picker. The picked section is rendered as
a list, with one item per activity.

This project models the deterministic core of that code and proves properties
of it:

- **Text clean-up** (`Formats`, over `Text`): `cleanTextField` decodes the four
  entities `&quot;`, `&amp;`, `&lt;` and `&gt;`, in that order and without regard
  to ASCII case, then applies JavaScript's `trim`. The model proves:
  - the result is trimmed;
  - the function leaves non-strings and the empty string unchanged;
  - a string that is exactly one of the four entities, in any mix of ASCII
    case, cleans to the character it stands for;
  - the fixed order makes `&amp;lt;` become `<`;
  - a trimmed string without `&` is a fixpoint.
- **Activity rendering** (`Formats`): `displayActivity` normalises the section
  title to ASCII letters and picks a formatter by that title. It yields one list
  item per activity, in order.
  - The detail formatter gives one `key: value` line per field whose value is
    truthy, in property order.
  - The `Consulting` formatter gives one line, `client (range): description`.
    The end term is dropped from the range when it is falsy or is the string
    `null`.
  - Rendered markup is modelled as data: a key plus either one text line or a
    sequence of lines.
- **Request signing** (`Signing`): the string to sign is
  `GET\n\n\n<timestamp>\n<path>`. The header is
  `INTF <public key>:<trim(base64(hmac(private key, string to sign)))>`. The
  model proves:
  - the string to sign can be split back into timestamp and path;
  - base64 (section 4 of RFC 4648, written out here) decodes back to its input;
  - the `trim` in the header never changes the signature;
  - the header splits back into public key and signature.
- **The REST handlers** (`UsersApi`):
  - Each handler signs only its path, then appends its query.
  - The administrators' emails are listed in query order.
  - The user list keeps exactly the upstream users whose email is on that
    list. It keeps their order and their repeats.
  - The `userdata` route accepts a non-empty identifier made of ASCII letters
    and digits, and nothing else.
- **The editor** (`Block`, over `Sorting`):
  - The user picker is a placeholder followed by `last, first` options, sorted
    stably by label.
  - The section picker is a placeholder followed by the section names, without
    repeats and without skipped names, sorted, each labelled with its cleaned
    form.
  - Both sorts run in place on an array. They are proved equal to a stable
    insertion sort, which is proved sorted, a permutation and stable.
  - The attribute bag is a class that the four callbacks update. It keeps an
    invariant: each picker starts with its placeholder, and `user`, `email` and
    `userid` agree.
- **JavaScript values** (`Records`) are `undefined`, `null`, booleans, integers
  and strings. The model covers their truthiness, their rendering inside a
  template literal, property lookup on a JSON object, and string comparison by
  UTF-16 code units.

## Model

| member | source | states |
|---|---|---|
| Records.DecimalRoundTrip | src/block/formats.js:53 | the decimal text an integer renders to in a template literal reads back as that integer |
| Records.Lookup | src/block/formats.js:23-26 | `fields[key]` is undefined when no field has the key, and otherwise is the value of the first field with that key |
| Text.ReplaceHeadAnyCase | src/block/formats.js:79-82 | a `/p/gi` replacement replaces a match at the head whatever the ASCII case of the matched text |
| Text.ReplaceWithoutLead | src/block/formats.js:79-82 | a string without the pattern's first (non-letter) character is left as it is by the replacement |
| Text.Trim | src/block/formats.js:83 | the trimmed string has no whitespace at either end and is the slice of the input with only whitespace outside it |
| Text.TrimTight | src/block/formats.js:83 | trimming a string with nothing to trim is the identity |
| Text.ContainsAt | src/block/block.js:170 | `includes` holds exactly when the substring occurs at some index |
| Text.LexLessTotal | src/block/block.js:136-144 | the label comparison orders two different strings one way and never both ways |
| Text.LexLessTransitive | src/block/block.js:136-144 | the label comparison is transitive |
| Formats.CleanString | src/block/formats.js:79-83 | cleaning a string gives a trimmed string no longer than the input |
| Formats.CleanTextField | src/block/formats.js:77-87 | a non-string or empty string comes back unchanged; a string comes back as a trimmed string no longer than before |
| Formats.CleanTextFieldOfString | src/block/formats.js:78 | on any string, the guard makes no difference: the result is the cleaned string |
| Formats.CleanFixpoint | src/block/formats.js:78-86 | a trimmed string without `&` is a fixpoint of the clean-up |
| Formats.EntityAnyCase | src/block/formats.js:79-82 | every ASCII-case variant of the four entities cleans like its lower-case form, to `"`, `&`, `<` or `>` |
| Formats.DecodingOrder | src/block/formats.js:79-82 | `&amp;lt;` cleans to `<`, while `&amp;quot;` cleans to `&quot;` and needs a second pass to reach `"`: the decoding is not single-pass |
| Formats.LettersOnlyKeepsLetters | src/block/formats.js:3 | the title filter keeps each ASCII letter as often as it occurs |
| Formats.LettersOnlyAppend | src/block/formats.js:3 | the title filter distributes over concatenation, so the letters keep their order |
| Formats.NormalizeTitle | src/block/formats.js:2-3 | a string title normalises to its cleaned form with every non-letter removed, made of letters only; any other title throws |
| Formats.FormatterLookupAsWritten | src/block/formats.js:10-12 | as written, the lookup finds the own formatter only for `Consulting`, and finds an inherited member for every name on the object prototype |
| Formats.PrototypeTitleSelectsNonFormatter | src/block/formats.js:10-12 | the title `to String` normalises to `toString`, and the lookup as written selects the inherited member |
| Formats.SelectFormatter | src/block/formats.js:5-12 | the Consulting formatter is chosen exactly for the title `Consulting`, and the detail formatter for every other |
| Formats.DetailLinesAppend | src/block/formats.js:48-56 | the lines of consecutive field runs are the lines of each run, in order |
| Formats.DetailLinesMembership | src/block/formats.js:48-56 | every line comes from a truthy field, and every truthy field gives its `key: value` line |
| Formats.DetailLinesSingle | src/block/formats.js:52-53 | one field gives its line when its value is truthy and nothing otherwise |
| Formats.DisplayActivityDetail | src/block/formats.js:44-63 | the loop builds the item keyed by the activity id whose lines are the field map's detail lines |
| Formats.EndOmittedIff | src/block/formats.js:25-31 | the end term is omitted exactly when the raw value is falsy or cleans to `""` or `null` |
| Formats.DateRangeShape | src/block/formats.js:28-31 | the date range is the start alone when the end is omitted, and `start - end` otherwise |
| Formats.ConsultingLineShape | src/block/formats.js:22-33 | the Consulting line is `client (start): description` or `client (start - end): description`, by the end-term rule |
| Formats.DisplayActivity | src/block/formats.js:1-19 | a non-string title throws; a string title gives one item per activity, in order, and each item is the `Consulting` item (its id and the Consulting line) when the normalised title is `Consulting`, and the detail item (its id and the detail lines) otherwise |
| Signing.Base64Encode | src/init.php:95 | the encoding has four characters per started group of three bytes, all from the base64 alphabet |
| Signing.Base64RoundTrip | src/init.php:95 | decoding the encoding gives the bytes back |
| Signing.TrimOfBase64 | src/init.php:95 | PHP's `trim` leaves base64 output unchanged |
| Signing.StringToSignRoundTrip | src/init.php:93 | with a newline-free timestamp, timestamp and request are read back from the string to sign |
| Signing.StringToSignInjective | src/init.php:93 | different timestamp/request pairs give different strings to sign |
| Signing.AuthHeaderShape | src/init.php:94-96 | the header is `INTF <public key>:<signature>` untrimmed, the signature is base64 characters, and a 20-byte digest gives 28 characters |
| Signing.AuthHeaderRoundTrip | src/init.php:96 | splitting the header at its last colon gives the public key and the signature back |
| UsersApi.SignedStringHasNoQuery | src/init.php:107-109 | for a `Y-m-d H:i:s` timestamp and either handler's path, the string to sign has no `?` and splits back into timestamp and path |
| UsersApi.CollectAdminEmails | src/init.php:133-136 | one email per administrator, in query order |
| UsersApi.KeepAdmins | src/init.php:139-146 | every kept user's email is on the list, and no more users are kept than came upstream |
| UsersApi.KeepAdminsSubsequence | src/init.php:139-146 | the kept users are the upstream users at strictly increasing positions |
| UsersApi.KeepAdminsCounts | src/init.php:139-146 | a user on the list is kept as often as it occurs upstream, and a user off the list is never kept |
| UsersApi.KeepAdminsComplete | src/init.php:140-143 | every upstream user whose email is on the list is in the result |
| UsersApi.FilterAdmins | src/init.php:139-145 | the loop keeps exactly what the allow-list filter keeps, in upstream order |
| UsersApi.GetUsersList | src/init.php:105-147 | the request is a GET of the host (the predefined one, else the Faculty180 API address) + `/users?data=detailed` whose header signs `/users` alone; the result is the upstream list filtered by the administrators' emails, or empty when the response is not a list |
| UsersApi.GetUserData | src/init.php:158-179 | the request is a GET of the host (the predefined one, else the Faculty180 API address) + `/userdata?userlist=<id>` whose header signs `/userdata` alone |
| UsersApi.MatchUserDataRoute | src/init.php:181 | a match captures a valid id, and the path is the route followed by that id |
| UsersApi.UserDataRouteRoundTrip | src/init.php:181 | the route followed by an id matches exactly when the id is non-empty ASCII letters and digits, and gives the id back |
| UsersApi.UserDataRouteRejects | src/init.php:181 | an id with any other character is refused |
| Sorting.InsertionSortSorted | src/block/block.js:136-144 | the sort's result is in ascending key order |
| Sorting.InsertionSortPermutation | src/block/block.js:136-144 | the sort's result is a permutation of its input |
| Sorting.InsertionSortStable | src/block/block.js:136-144 | elements with equal keys keep their relative order |
| Sorting.SortInPlace | src/block/block.js:136-144 | the array afterwards holds the stable sort of what it held before |
| Block.UserOptions | src/block/block.js:130-134 | one option per user, in order, valued with the email and labelled `last, first` |
| Block.UserOptionListShape | src/block/block.js:136-147 | the picker has the placeholder at index 0 and one more entry than users; the rest is sorted by label, a permutation of the users' options, and stable |
| Block.BuildUserOptions | src/block/block.js:130-147 | pushing, sorting in place and unshifting yields the user picker |
| Block.CollectSections | src/block/block.js:168-175 | the names have no repeats, no name containing `DNU` or `TEST` or on the skip list, and every other name in the data |
| Block.CollectSectionNames | src/block/block.js:167-175 | the loop collects exactly those names |
| Block.SortedOptionsShape | src/block/block.js:177-187 | options built from distinct names have the placeholder first, then each name once, ascending, labelled with its cleaned form |
| Block.SectionOptionListShape | src/block/block.js:177-187 | the section picker has the placeholder first, then each collected name once, ascending, labelled with its cleaned form |
| Block.BuildSectionOptions | src/block/block.js:167-187 | collecting, sorting in place and pushing yields the section picker |
| Block.PushSectionOptions | src/block/block.js:179-185 | the placeholder is pushed first, then one option per name, in order |
| Block.MatchingUsers | src/block/block.js:154-156 | every user the filter returns has the email, and every user with the email is returned |
| Block.MatchingUsersIsFilter | src/block/block.js:154-156 | the filter keeps exactly the users with the email, at increasing positions and each as often as it occurs |
| Block.SingleMatch | src/block/block.js:154-159 | the filter returns one user exactly when one position holds the email, and that user is the one at that position |
| Block.FirstSection | src/block/block.js:203-206 | no entry exactly when no entry has the name; otherwise the entry at the first position with the name |
| Block.UserDataTargetRoutes | src/block/block.js:164 | the requested path is the REST prefix plus the userdata route plus the id, and the route accepts it exactly for a valid id |
| Block.BlockAttributes.constructor | src/block/block.js:52-100 | the attributes start at their registered defaults |
| Block.BlockAttributes.OnUsersFetched | src/block/block.js:121-148 | `foundNoUsers` becomes true on an empty list, `allUsers` is the list, `userOptions` the user picker; nothing else changes |
| Block.BlockAttributes.UpdateEmailAddress | src/block/block.js:151-197 | sections are reset; one matching user sets email, id and user and asks for that user's data; otherwise all three are cleared and `userError` is set; nothing else changes |
| Block.BlockAttributes.OnUserDataFetched | src/block/block.js:165-188 | `userdata` is the response and `sections` the section picker built from it; nothing else changes |
| Block.BlockAttributes.UpdateSection | src/block/block.js:199-210 | an empty choice changes nothing; otherwise the section and its first data entry, or none, are stored |

## Left out

- HTTP and JSON are left out: `file_get_contents`, `stream_context_create`, `json_decode` and `jQuery.get`. Each response is an input to the method that handles it, and each request is returned as data.
- WordPress APIs are left out: `WP_User_Query` and the registration of styles, scripts, block and routes. The administrators are an input. The route is modelled as the pattern a path must match.
- HMAC-SHA1 is a function parameter of the signing functions. SHA-1 and HMAC are not modelled. `date()` is replaced by a timestamp input.
- React rendering is left out: JSX, `dangerouslySetInnerHTML`, the preloader, spinner and inspector markup, and the icon. Items are data.
- `save` is left out. It only renders markup. It destructures `hideTitle` but reads `hidetitle`, which is not declared in its scope, so it throws a `ReferenceError` whenever `sectiondata` is truthy.
- `updateOutputContainer` and `updateHideTitle` are left out. Each only copies its argument into an attribute.
- `updateEmail` is left out. It sets `user` to `false` and copies its argument into `email`; no control of the block calls it.
- The two fetches run asynchronously in the source. Here each `.done` callback is a separate step.
- The config file is not part of this model. Its skip list, `sectionsToSkip`, is a parameter.
- `plugin.php` is not part of this model. It only loads the other files.
- Records.JsValue: field values that are objects, arrays or non-integer numbers are not modelled. Numbers are the safe integers, |n| <= 2^53 - 1; larger numbers, even those a double holds exactly, are not modelled.
- Records.Field: an activity's field map is a sequence of fields, which could repeat a key although a JSON object's own properties never do; lookup takes the first.
- Formats.DisplayActivityDetail: a field named `hasOwnProperty` shadows the method, so the source throws a `TypeError` for such an activity. The model takes the `hasOwnProperty` test to pass for every field and pushes its line.
- UsersApi.KeepAdmins: PHP's `in_array` compares loosely. It is modelled as string equality, which is exact when the emails are non-numeric strings.
- Block.UserOption: users' names and emails are strings. An absent name, which would render as `undefined`, is not modelled.
- Block.BlockAttributes.UpdateSection: a select control only delivers strings, so `""` is the only falsy choice modelled.
- Formats.DisplayActivity: uses the corrected formatter choice from "Findings". The as-written lookup is modelled separately.
- Formats.NormalizeTitle: every non-string title is modelled as throwing `TypeError`. Which message a JavaScript engine gives is not modelled.
- UsersApi.MatchUserDataRoute: WordPress matches a route with `@^…$@i`. The model anchors it at both ends and ignores ASCII case. PCRE's `$` also matches before a final newline, so the source also accepts a path that ends in one newline; the model refuses it. The matcher code itself is not part of this model.

## Findings

| source | as written | input that shows it | evidently intended | confidence | as-written member | corrected member |
|---|---|---|---|---|---|---|
| src/block/formats.js:10-12 | `formatFunctions[title]` also finds members inherited from `Object.prototype` | a section titled `to String` normalises to `toString`, and `Object.prototype.toString` is called as the formatter | only the table's own key `Consulting` selects a formatter; every other title uses the detail view | medium, not executed | Formats.FormatterLookupAsWritten | Formats.SelectFormatter |
