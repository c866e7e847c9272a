# Mood booster bot: the vote, favorites and language stores

A Dafny model of the stateful core of a Telegram bot that sends jokes, quotes, facts and images
for a chosen mood. Users interact with it through inline buttons. The model covers:

- **Votes.** The vote store is the `VoteManager` of `voting/vote_manager.go` and the older copy
  on the package-level map in `main.go`. A thumbs-up or thumbs-down button carries the payload
  `vote_<type>_<messageID>_<up|down>`. Votes are kept per `<type>_<messageID>` key. A user's new
  vote replaces that user's earlier vote under the key, so each user has at most one vote per
  message.
- **Favorites.** The favorites store of `favorites/favorite_manager.go` is a per-user cache.
  It is filled lazily from one file per user and rewritten after every add or remove. Records get
  ids of eight hex digits. A prefix-based router handles `favorite_add` and
  `favorite_remove_<id>`.
- **Language preferences.** The preference store of `translation/language_manager.go` maps
  users to languages, with English as the default. It rewrites the whole preferences file after
  every change.
- **The pure rules around the stores:**
  - the `lang_*` selection and the "every language but the current one" keyboard
    (`handlers/language_handler.go`, repeated verbatim in `handlers/message_handlers.go`);
  - the heuristic in `handlers/message_handlers.go` that rebuilds a quote, a joke or a fact
    from a message's text when the user stars it;
  - the language helpers of `translation/translator.go`: command to language, the per-language
    prefix, and the non-network half of `TranslateText`.

Layout, one module per file, except that `Text.dfy` also holds the small `Wrappers` module
(the `Option` type):

- `Text.dfy`. The Go library behaviour the core relies on: `strings.Index`, `Contains`,
  `Split`, `TrimSpace` and `ToLower`, `fmt`'s `%d` in both directions, and
  `hex.EncodeToString`. Each is stated with its characterising properties: Split/Join round
  trip, pieces free of the separator, decimal and hex round trips.
- `Voting.dfy`. The vote store:
  - the payload format and its parser;
  - the per-key list as a function of the old list;
  - the two loops (filtering, tallying) as methods proved against those functions;
  - `VoteManager` as a class whose `votes` field `HandleVote` updates.
- `LegacyBot.dfy`. `main.go`'s `handleVote` on the package-level map (a `Bot` object here) and
  the dispatch test that routes callbacks to it.
- `Favorites.dfy`. The favorites store. The data directory is a field mapping file paths to
  what the files hold: missing, unreadable, malformed, or a list of records. The effect of each
  operation on cache and files together is a function (`Loaded`, `AfterAdd`, `AfterRemove`),
  and the `FavoriteManager` methods are proved to perform it.
- `Translation.dfy`. The language constants and the helpers of `translator.go`.
  `TranslateText` takes the service's reply as a parameter.
- `LanguageStore.dfy`. `LanguageManager` with its preference map and preferences file. Loading
  is a loop over the records; saving is a loop over the map's keys in an arbitrary order.
- `LanguageHandler.dfy`. The selection callback and the language keyboard.
- `MessageHandlers.dfy`. The favorite classification and the handler that forwards to the
  favorites store.

Randomness, the clock and whether a file write succeeds are parameters:

- `randomBytes` stands for the four bytes read from `crypto/rand`.
- `now` stands for `time.Now().Unix()`.
- `writeOk` says whether a file write succeeded.

## Model

| member | source | states |
|---|---|---|
| Text.JoinSplit | voting/vote_manager.go:40 | Joining the pieces of `strings.Split` with the separator gives back the input. |
| Text.SplitPiecesFree | voting/vote_manager.go:40 | No piece of `strings.Split` contains the separator. |
| Text.SplitCount | handlers/message_handlers.go:389-399 | Split gives at least two pieces exactly when the text contains the separator. So the `len(parts) >= 2` guards always hold after a successful `Contains`. |
| Text.SplitFirstPieces | handlers/message_handlers.go:391-401 | The first piece is the text before the first separator. The second is the text between the first and the second separator, or up to the end. |
| Text.IndexOf | handlers/message_handlers.go:389 | The result is the leftmost occurrence; absent means no occurrence anywhere. |
| Text.TrimSpaceSlice | handlers/message_handlers.go:393-401 | `strings.TrimSpace` returns a contiguous slice of its input. Everything cut off is white space, and the result neither starts nor ends with white space. |
| Text.TrimSpaceFixedPoint | handlers/message_handlers.go:393-401 | `strings.TrimSpace` leaves a string unchanged exactly when it neither starts nor ends with white space. |
| Text.TrimSpacePadded | handlers/message_handlers.go:393-401 | White space before and after such a string is exactly what `strings.TrimSpace` removes. |
| Text.ToLower | translation/translator.go:97 | Same length, each character lower-cased. |
| Text.ToLowerIdempotent | translation/translator.go:97 | Lower-casing leaves no upper-case ASCII letter and is idempotent. |
| Text.FormatInt | voting/vote_manager.go:57 | `%d` gives a non-empty string of digits with an optional leading minus. |
| Text.ScanFormatInt | voting/vote_manager.go:47 | Scanning with `%d` what `%d` printed gives back the same 64-bit integer. |
| Text.ScanIntNoDigits | voting/vote_manager.go:46-47 | A part without a digit does not scan, so the message id stays 0. |
| Text.FormatIntInjective | favorites/favorite_manager.go:168-170 | Different integers print differently. |
| Text.HexEncode | favorites/favorite_manager.go:164 | `hex.EncodeToString` gives two lower-case hex digits per byte. |
| Text.HexRoundTrip | favorites/favorite_manager.go:161-165 | Hex decoding inverts hex encoding. |
| Text.Split | voting/vote_manager.go:40 | `strings.Split` at the leftmost non-overlapping occurrences, always at least one piece; JoinSplit, SplitPiecesFree, SplitCount and SplitFirstPieces state what the pieces are. |
| Text.TrimSpace | handlers/message_handlers.go:393-401 | `strings.TrimSpace`; TrimSpaceSlice, TrimSpaceFixedPoint and TrimSpacePadded state exactly what it removes. |
| Text.ScanInt | voting/vote_manager.go:46-47 | `fmt.Sscanf` with `%d`; ScanFormatInt states that it reads back what `%d` printed, and ScanIntNoDigits that a part without digits does not scan. |
| Text.Contains | handlers/message_handlers.go:389-396 | `strings.Contains`, also used at translation/translator.go:100-102; ContainsIff states that it holds exactly when some position starts an occurrence, and IndexOf finds the leftmost one. |
| Voting.PayloadIsVoteCallback | voting/vote_manager.go:100-102 | Every keyboard payload passes `IsVoteCallback`, and the bare "vote_" does not. |
| Voting.ParseVotePayload | voting/vote_manager.go:26-53 | For a content type without `_` and a 64-bit message id, both buttons' payloads parse back to that content type, id and direction. |
| Voting.SplitPayload | voting/vote_manager.go:40-48 | A payload whose fields contain no `_` splits into exactly its four fields. |
| Voting.NonNumericIdKeysZero | voting/vote_manager.go:45-57 | A message-id part with no digit leaves the id 0, so the key is `<type>_0`. |
| Voting.WithoutUserMembers | voting/vote_manager.go:60-66 | A vote survives the filter exactly when it was in the list and was cast by another user. |
| Voting.WithoutUserCounts | voting/vote_manager.go:60-66 | After filtering the voter has no votes left, and every other user keeps as many as before. |
| Voting.WithoutAbsentUser | voting/vote_manager.go:60-66 | Filtering out a user who has no vote in the list changes nothing. |
| Voting.WithoutUserConcat | voting/vote_manager.go:60-66 | The filter distributes over concatenation, so the other users' votes keep their relative order. |
| Voting.VotesByConcat | voting/vote_manager.go:60-69 | A user's vote count in a concatenation is the sum of the counts in the two halves. |
| Voting.RecordVoteOnePerUser | voting/vote_manager.go:59-70 | After a vote the voter has exactly one vote under the key, and it is the last element with the new direction. Every other user keeps their count. |
| Voting.RecordVoteKeepsInvariant | voting/vote_manager.go:59-70 | At most one vote per user per key is preserved by recording a vote. |
| Voting.RevoteReplaces | voting/vote_manager.go:59-70 | Last write wins: a second vote by the same user gives the list the second vote alone would give. |
| Voting.RecordVoteTally | voting/vote_manager.go:59-96 | After a vote the tallies are those of the other users plus one in the new vote's direction. |
| Voting.TallyCoversAll | voting/vote_manager.go:87-96 | Every vote is counted up or down, so up + down is the list's length. |
| Voting.FilterOtherUsers | voting/vote_manager.go:60-66 | The filtering loop yields exactly the other users' votes, in order. |
| Voting.CountVotes | voting/vote_manager.go:87-96 | The counting loop yields the up and down tallies, and they add up to the length. |
| Voting.AfterVoteFrame | voting/vote_manager.go:40-70 | A malformed payload changes no key, and a vote changes no key but its own: every other key is present exactly when it was before, with the same list. |
| Voting.AfterVoteKeepsInvariant | voting/vote_manager.go:56-70 | One vote per user per key holds in the whole store after any vote. |
| Voting.VoteManager.HandleVote | voting/vote_manager.go:38-77 | Fewer than four parts: "Invalid vote data", store unchanged. Otherwise the key's list loses the user's old vote and gains the new one at the end, and the reply is the thumbs-up text exactly when part 3 is "up". |
| Voting.VoteManager.GetVoteStats | voting/vote_manager.go:80-97 | The up and down tallies of the key's list; (0, 0) for an unknown key. The store is not changed. |
| Voting.VotePayload | voting/vote_manager.go:30-31 | The up and down payloads of the voting keyboard; PayloadIsVoteCallback and ParseVotePayload state that they pass the vote test and parse back to their fields. |
| Voting.ParseVote | voting/vote_manager.go:40-53 | A payload is invalid exactly when it splits into fewer than four pieces at `_`, and a parsed content type never contains `_`. |
| Voting.VoteKey | voting/vote_manager.go:57 | The `%s_%d` key, the same at line 84 in GetVoteStats, so the statistics read the list the votes were written to; NonNumericIdKeysZero states the key of an id that does not scan. |
| Voting.IsVoteCallback | voting/vote_manager.go:100-102 | The vote test; PayloadIsVoteCallback states that every keyboard payload passes it and "vote_" alone does not. |
| Voting.AfterVote | voting/vote_manager.go:56-70 | The store after HandleVote; AfterVoteFrame states that only the payload's key changes, and AfterVoteKeepsInvariant that one vote per user per key is kept. |
| Voting.VoteManager.constructor | voting/vote_manager.go:19-24 | The vote store starts empty. |
| Voting.VoteReply | voting/vote_manager.go:73-76 | The thumbs-up reply for an up vote and the feedback reply otherwise, as also at main.go:161-164; HandleVote states that its reply is this choice for every parsed payload. |
| Voting.VotesAt | voting/vote_manager.go:60 | Reading a key of the map, with a missing key read as the empty list as Go's nil slice is (also at line 85); AfterVoteFrame and GetVoteStats are stated through it. |
| Voting.WithoutUser | voting/vote_manager.go:60-66 | The votes not cast by the voter, in order; WithoutUserMembers, WithoutUserCounts, WithoutAbsentUser and WithoutUserConcat state its effect, and FilterOtherUsers is proved to compute it. |
| Voting.RecordVote | voting/vote_manager.go:59-69 | Filter out the voter, then append the new vote; RecordVoteOnePerUser, RecordVoteKeepsInvariant, RevoteReplaces and RecordVoteTally state its effect. |
| Voting.UpCount | voting/vote_manager.go:87-96 | The number of up votes; TallyCoversAll and RecordVoteTally state its properties, and CountVotes is proved to compute it. |
| Voting.DownCount | voting/vote_manager.go:87-96 | The number of down votes; TallyCoversAll and RecordVoteTally state its properties, and CountVotes is proved to compute it. |
| LegacyBot.RouteCallback | main.go:307-348 | A callback is a vote exactly when it is longer than five characters and starts with "vote_". Otherwise the four known moods keep their name as content type and everything else is "unknown". |
| LegacyBot.MoodVotesRoundTrip | main.go:117-136 | The voting buttons attached for any mood come back as votes and parse to that mood's content type, the id and the direction. |
| LegacyBot.Bot.HandleVote | main.go:126-165 | The same transition and reply as the vote manager's HandleVote, on the package-level map. |
| LegacyBot.Bot.constructor | main.go:49 | The package-level votes map starts empty. |
| Favorites.GenerateID | favorites/favorite_manager.go:160-165 | The id is 8 lower-case hex digits that decode back to the four random bytes. |
| Favorites.UserFilePathInjective | favorites/favorite_manager.go:167-170 | Different users have different files. |
| Favorites.LoadFile | favorites/favorite_manager.go:172-196 | A missing, unreadable or unparsable file loads as the empty list; otherwise its records load. |
| Favorites.Loaded | favorites/favorite_manager.go:43-46 | Load-if-absent: an uncached user gets their file's contents. A cached user, the files and every other user are left as they were. |
| Favorites.ListIsIdempotent | favorites/favorite_manager.go:79-82 | A second access finds the cache entry and never reloads. |
| Favorites.AddAppends | favorites/favorite_manager.go:43-64 | Adding appends exactly the new record to the user's list. |
| Favorites.SavedListSurvivesRestart | favorites/favorite_manager.go:198-214 | After a successful save a fresh manager loads exactly the saved list. |
| Favorites.OtherUsersUntouched | favorites/favorite_manager.go:38-119 | Add and remove leave every other user's cache entry and file exactly as they were: present exactly when it was before, with the same contents. |
| Favorites.AddPersists | favorites/favorite_manager.go:38-72 | After a successful add the user's file loads as the new in-memory list, also into a restarted manager with an empty cache; after a failed add the appended list stays in memory and the files are unchanged. |
| Favorites.RemovePersists | favorites/favorite_manager.go:93-119 | After a successful removal of a held id the user's file loads as the shortened list, so the removal survives a restart; after a failed one the shortened list stays in memory and the files are unchanged. |
| Favorites.RemoveFirstAt | favorites/favorite_manager.go:104-107 | Removing drops exactly the first record with the id and keeps the others in order. |
| Favorites.RemoveAbsent | favorites/favorite_manager.go:103-118 | Removing an id no record has leaves the list unchanged. |
| Favorites.RemovePresentLength | favorites/favorite_manager.go:103-107 | Removing a present id shortens the list by one. |
| Favorites.RemoveOutcome | favorites/favorite_manager.go:93-119 | A missing id changes nothing beyond the cache load and writes no file; a present id shortens the list by one. |
| Favorites.ParseFavoriteAction | favorites/favorite_manager.go:143-157 | Add exactly for "favorite_add"; remove of a non-empty id for "favorite_remove_" plus that id; anything else is unknown. |
| Favorites.RemovePayloadRoundTrip | handlers/message_handlers.go:347 | The remove button built for a record routes back to removing that record's id. |
| Favorites.RoutedActionsAreFavoriteCallbacks | favorites/favorite_manager.go:137-157 | Every payload the router acts on passes `IsFavoriteCallback` (length > 9, prefix "favorite_"). |
| Favorites.FavoriteManager.LoadIfAbsent | favorites/favorite_manager.go:43-46 | Performs `Loaded`. |
| Favorites.FavoriteManager.SaveUserFavorites | favorites/favorite_manager.go:198-214 | A successful write stores the list under the user's path; a failed one leaves the files alone and reports the failure. |
| Favorites.FavoriteManager.AddFavorite | favorites/favorite_manager.go:38-72 | Returns the generated id. Performs `AfterAdd` with a record carrying that id, the user, the given fields and the clock, and keeps the addition even when the save fails. |
| Favorites.FavoriteManager.GetUserFavorites | favorites/favorite_manager.go:74-91 | Returns the (lazily loaded) cached list. |
| Favorites.FavoriteManager.RemoveFavorite | favorites/favorite_manager.go:93-119 | Returns true exactly when the loaded list has the id, and performs `AfterRemove`: splice out the first match and save, or change nothing. |
| Favorites.FavoriteManager.GetFavoriteCount | favorites/favorite_manager.go:121-135 | The length of the (lazily loaded) cached list. |
| Favorites.FavoriteManager.HandleFavoriteCallback | favorites/favorite_manager.go:142-158 | Routes to add, remove or nothing. Replies "Added to favorites! (ID: …)", "Removed from favorites!", "Favorite not found." or "Unknown favorite action." |
| Favorites.IsFavoriteCallback | favorites/favorite_manager.go:138-140 | The favorite test; RoutedActionsAreFavoriteCallbacks states that every payload the router acts on passes it. |
| Favorites.UserFilePath | favorites/favorite_manager.go:167-170 | The path lies in the data directory and ends with `_favorites.json`; UserFilePathInjective states that different users get different paths. |
| Favorites.SaveFile | favorites/favorite_manager.go:198-214 | A successful write stores the list under the path, a failed one changes nothing, and no other path changes. |
| Favorites.AfterAdd | favorites/favorite_manager.go:38-72 | The store after AddFavorite; AddAppends states that the user's list gains exactly the new record, AddPersists that the file follows it, and OtherUsersUntouched that no other user changes. |
| Favorites.AfterRemove | favorites/favorite_manager.go:93-119 | The store after RemoveFavorite; RemoveOutcome states the found and not-found cases, RemovePersists that the file follows a removal, and OtherUsersUntouched that no other user changes. |
| Favorites.RemoveFirst | favorites/favorite_manager.go:104-107 | Dropping the first record with the id; RemoveFirstAt states it is the splice at the first match, RemoveAbsent and RemovePresentLength what happens without and with a match. |
| Favorites.FavoriteManager.constructor | favorites/favorite_manager.go:24-36 | An empty cache over the existing files, in the directory "user_data". |
| Favorites.HasFavorite | favorites/favorite_manager.go:104-106 | Some record has the id, the test of the search loop; RemoveFavorite returns it, and RemoveAbsent, RemovePresentLength and RemoveOutcome are stated by it. |
| Translation.GetLanguageFromCommand | translation/translator.go:96-107 | Always one of en, hi and ta. |
| Translation.LanguageFromCommandCases | translation/translator.go:96-107 | Tamil exactly when the lower-cased command contains "ta". Hindi exactly when it contains "hi" but not "ta", so Tamil wins over Hindi. English otherwise. |
| Translation.LanguageFromCommandIgnoresCase | translation/translator.go:97 | Lower-casing the command first changes nothing. |
| Translation.FormatLanguageSpecificText | translation/translator.go:110-121 | The flag prefix for ta and hi, the text unchanged otherwise. The text is always a suffix of the result. |
| Translation.Truncate | translation/translator.go:51-53 | Text of at most 500 characters is unchanged. Longer text becomes its first 500 characters and "...", 503 in all. |
| Translation.TruncateIdempotent | translation/translator.go:51-53 | Cutting twice is cutting once. |
| Translation.TranslateText | translation/translator.go:43-93 | English comes back unchanged with no error. Otherwise every failure returns the cut text with an error, and success returns exactly the service's non-empty translation. |
| Translation.TranslateFallbackBounded | translation/translator.go:51-92 | A failed translation returns at most 503 characters, and the input itself when it was short. |
| LanguageStore.LanguageOf | translation/language_manager.go:52-60 | The stored language, or English for a user without one. |
| LanguageStore.LastChoiceWins | translation/language_manager.go:43-60 | After setting L for a user their language is L, and no other user's language changes. |
| LanguageStore.SupportedLanguages | translation/language_manager.go:63-69 | Exactly en, hi and ta, with their display names. |
| LanguageStore.InsertAllKeys | translation/language_manager.go:87-89 | After loading, a user has a preference exactly when they had one before or have a record in the file. |
| LanguageStore.InsertAllUntouched | translation/language_manager.go:87-89 | Loading leaves the language of a user without a record as it was. |
| LanguageStore.InsertAllLastWins | translation/language_manager.go:87-89 | Loading gives a user with records the language of their last record: later records overwrite earlier ones. |
| LanguageStore.SaveLoadRoundTrip | translation/language_manager.go:72-110 | Loading what a save wrote into an empty manager reproduces the map, whatever the order of the records. |
| LanguageStore.SetSurvivesRestart | translation/language_manager.go:43-49 | After a successful SetUserLanguage a restarted manager reads back the new choice. |
| LanguageStore.LanguageManager.LoadPreferences | translation/language_manager.go:72-90 | A missing, unreadable or malformed file changes nothing. Otherwise the records are inserted in order. |
| LanguageStore.LanguageManager.SavePreferences | translation/language_manager.go:93-110 | A successful write stores one record per map entry with that entry's language; a failed one leaves the file alone. |
| LanguageStore.LanguageManager.SetUserLanguage | translation/language_manager.go:43-49 | The map gets the new entry, kept even when the save fails, and the failure is reported. |
| LanguageStore.LanguageManager.GetUserLanguage | translation/language_manager.go:52-60 | The user's language with the English default. |
| LanguageStore.InsertAll | translation/language_manager.go:87-89 | The insertion loop as a function; InsertAllKeys, InsertAllUntouched and InsertAllLastWins state its effect on every user. |
| LanguageStore.AfterLoad | translation/language_manager.go:72-90 | The map after loadPreferences; LoadPreferences is proved to compute it, and SaveLoadRoundTrip states that it reads back what a save wrote. |
| LanguageStore.Represents | translation/language_manager.go:93-102 | What a save writes: one record per map entry with that entry's language and no user twice; SavePreferences establishes it. |
| LanguageStore.LanguageManager.constructor | translation/language_manager.go:25-40 | The map starts empty and is filled from the existing file. |
| LanguageHandler.LanguageSelection | handlers/language_handler.go:62-74 | Exactly "lang_en", "lang_hi" and "lang_ta" select a language, the one named after "lang_", with its confirmation text, each of the three stated. |
| LanguageHandler.HandleLanguageSelection | handlers/language_handler.go:58-82 | Unknown data: "Unknown language selection", store untouched. Otherwise the language is set, and the reply is the confirmation or "Error saving language preference". |
| LanguageHandler.OfferedLanguages | handlers/language_handler.go:17-33 | Every language but the current one, in the order en, hi, ta. At least two always; exactly two when the current one is en, hi or ta. |
| LanguageHandler.LanguageButtons | handlers/language_handler.go:15-33 | The conditional appends build one button per offered language, in order, so never fewer than two: the empty-keyboard branch at lines 36-49 is dead. |
| LanguageHandler.SendLanguageKeyboard | handlers/language_handler.go:11-33 | The buttons for the language stored under the chat's id. |
| LanguageHandler.OfferedButtonsSwitchLanguage | handlers/language_handler.go:19-71 | Every offered button is accepted by the selection handler and selects a language other than the current one. |
| LanguageHandler.ButtonFor | handlers/language_handler.go:17-33 | The button of a language: its payload is "lang_" followed by the language code, with the display name as text. |
| MessageHandlers.ClassifyFavorite | handlers/message_handlers.go:379-406 | Quote exactly when the text has an em dash. Joke exactly when it has none but has a blank line and no "SURPRISE". Otherwise a fact carrying the untrimmed text and empty other fields. Never "general", and the image URL is always empty. |
| MessageHandlers.QuoteFields | handlers/message_handlers.go:389-395 | Content is the trimmed text before the first em dash. Author is the trimmed text between the first and second em dash, not the whole rest. |
| MessageHandlers.JokeFields | handlers/message_handlers.go:396-403 | Setup and punchline are the trimmed first and second blank-line pieces, and the content joins them with a space. |
| MessageHandlers.QuoteRoundTrip | handlers/message_handlers.go:389-395 | A dash-free quote and author that neither start nor end with white space, written as "content — author", classify back to that content and author. |
| MessageHandlers.ForwardedFields | handlers/message_handlers.go:376-411 | "favorite_add" forwards the classified fields; any other data forwards six empty fields. |
| MessageHandlers.HandleFavoriteCallback | handlers/message_handlers.go:376-412 | The favorites store's callback transition and reply, with the forwarded fields. |

## Left out

- Telegram I/O is not modelled: sending messages, photos and keyboards, answering callbacks,
  and the update loop of `main.go` beyond its vote test and mood switch. Only payload strings
  and button lists are modelled.
- The message id the update loop gives the voting keyboard is not modelled; it is a parameter
  everywhere. (For a text-only message, `main.go:373` reads the id of a message that has not
  been sent yet, so it is 0.)
- The HTTP content fetchers (`fetchers/api_clients.go`, the fetchers in `main.go`) are network
  clients and are not modelled. Their quote separator, at `fetchers/api_clients.go:31`, is not
  the em dash the classifier looks for; the classifier is modelled on arbitrary text.
- The network half of `TranslateText` (URL building, the request, JSON decoding) is not
  modelled. The service's reply is a parameter.
- `handlers/mood_handler.go` and `handlers/content_utils.go` only orchestrate fetching,
  translating and sending, and are not modelled.
- `models/models.go` is not part of this model. `Vote` follows its shape. `Favorite` has the
  fields `AddFavorite` fills in.
- Locking (`sync.RWMutex`) is not modelled; every operation is one sequential step. The getters
  `GetUserFavorites` and `GetFavoriteCount` write the cache while holding only the read lock, a
  race the sequential model cannot show.
- The file system is not modelled:
  - JSON encoding is not modelled. A file is its decoded content, or one of the markers
    missing, unreadable or malformed.
  - `os.MkdirAll` is not modelled; the directory is taken to exist.
  - A write either succeeds whole or leaves the file as it was; partial writes are not
    modelled.
  - Marshalling errors cannot happen for these record types and are not modelled.
  - `filepath.Join` is modelled as joining with "/", which is what it gives for the fixed
    directory names used.
- Text.ToLower: lower-cases ASCII letters only, not the Unicode case mapping of
  `strings.ToLower`. Go maps some non-ASCII letters to ASCII ones (U+0130 'İ' to 'i', U+212A
  KELVIN SIGN to 'k'), so a language command whose "hi" or "ta" appears only after Unicode
  lower-casing (for example "/lang Hİ") picks Hindi or Tamil in Go but English in the model.
- Text.ScanInt: does not skip leading white space, which `fmt.Sscanf` does before `%d`. A
  message-id part with leading spaces scans as 0 in the model.
- Translation.Truncate: counts characters, not bytes. Go's `len(text) > 500` and `text[:500]`
  count UTF-8 bytes and can cut a multi-byte character in half.
- Translation.FormatLanguageSpecificText: the prefix is the source file's characters as written,
  the flag's UTF-8 bytes read as Windows-1252 text. The flag it was meant to be is not
  modelled.
- `IsTranslationSupported` always returns true and is not modelled.
- Go's `int64` is modelled as an unbounded `int`. Only the `%d` round trip assumes the value
  fits 64 bits.
