# remove-duplicates-youtube: a verified model of the core

remove-duplicates-youtube is a small tool for YouTube playlists. Around the
API plumbing sit a few pieces of pure logic, and this project models them in
Dafny and proves their properties:

- **Similarity** (`similarity.dfy`). `calculate_similarity` lower-cases both
  strings and returns SequenceMatcher's ratio `2*M/T`. Here `T` is the
  combined length and `M` the matched-character count. `M` is abstract: it
  is a `MatchCount`, a function bounded by both string lengths that
  matches every string with itself completely.
- **Duplicate removal** (`dedup.dfy`). `remove_similar_songs` walks the
  playlist in order and keeps a running list of kept songs. A song is
  dropped when its title similarity reaches the title threshold AND its
  artist similarity reaches the artist threshold against some kept song.
  The first such kept song is named in an evidence record. The engine is
  stated for any similarity function (`Policy`). `DefaultPolicy` plugs in
  `calculate_similarity` with the thresholds 0.8 and 0.9 that main() uses.
- **Playlist side** (`playlist.dfy`). `get_playlist_songs` turns fetched
  items into songs: the artist is the video owner's channel, else the
  channel, else "Unknown". It then sorts them stably by lower-cased title.
  `remove_videos_from_playlist` counts successful and failed deletions.
- **CSV import** (`csv_import.dfy`). `import_songs_from_csv` skips the
  first row. It then keeps `(row[2], row[3])` from rows with at least four
  fields, drops rows with an empty field and repeated header rows, and
  deduplicates the pairs, keeping the first occurrence.
- **Matching and adding** (`matching.dfy`). This is the loop of
  `add_songs_to_shazam_playlist`. Candidates score
  `(sim(title) + sim(artist)) / 2`. The best is chosen by a strict `>`
  scan from 0 and accepted only above 0.5. It is inserted unless its id is
  already in the playlist's id set, and the set grows on each successful
  insert. Songs with no accepted match, or whose search failed, go to the
  unmatched list.
- **Playlist lookup** (`playlist_lookup.dfy`). This is the title comparison
  in `get_or_create_shazam_playlist` (see Findings).

Supporting modules:

- `common.dfy`: `Option`, `Select` (the sub-sequence picked out by a flag
  sequence) and `NoDuplicates`.
- `text.dfy`: ASCII lower-casing, Python's `strip()` and code-point string
  order.

Remote calls are parameters of the model, so every outcome is covered:

- the fetched items;
- the outcome of each delete, search and insert call;
- the rows of the CSV file.

SequenceMatcher's ratio depends on argument order, so no symmetry is
claimed: `MatchCount` is an arbitrary bounded function of the ordered pair.

## Model

| member | source | states |
|---|---|---|
| Similarity.Ratio | index.py:129 | The ratio lies in [0, 1]. Two empty strings score 1.0. It is 1.0 exactly when every character is matched, and 0.0 exactly when nothing is matched in non-empty input. |
| Similarity.CalculateSimilarity | index.py:118-129 | The similarity is a value in [0, 1]. |
| Similarity.SimilarityIgnoresCase | index.py:129 | The score depends only on the lower-cased inputs. Pairs equal after lower-casing score the same, and lower-casing first changes nothing. |
| Similarity.SimilarityReflexive | index.py:129 | Every string has similarity 1.0 with itself, of any length: with no junk predicate, SequenceMatcher matches a string with itself over its whole length. |
| Text.Strip | shazam_import.py:26 | `strip()` returns the infix left after removing leading and trailing whitespace. What was removed is whitespace, and the result neither starts nor ends with whitespace. |
| Text.ToLower | index.py:297 | Lower-casing keeps the length of the string. |
| Text.ToLowerAt | index.py:129 | Each character is lower-cased on its own: A-Z map to a-z and every other character is kept. |
| Text.ToLowerIdempotent | index.py:129 | Lower-casing twice is the same as lower-casing once. |
| Text.LexLe | index.py:297 | Python's `<=` on strings: code point by code point, and a proper prefix comes first. |
| Text.LexLeTotal | index.py:297 | Any two strings are ordered one way or the other, so the title order is total. |
| Text.LexLeTransitive | index.py:297 | The string order is transitive. |
| Dedup.DefaultPolicy | index.py:132 | The default run uses thresholds 0.8 (title) and 0.9 (artist) and a similarity in [0, 1]. |
| Dedup.IsDuplicateOf | index.py:157 | A song duplicates a kept song only when the title similarity reaches the title threshold and the artist similarity reaches the artist threshold. |
| Dedup.FirstMatch | index.py:151-165 | The inner loop finds the earliest kept song that meets both thresholds. It finds none exactly when no kept song meets both. |
| Dedup.Step | index.py:151-168 | One outer iteration appends exactly one entry in total, to one of the two lists, and changes nothing already in either list. Which list gets the entry, and what the entry is, is stated by `Dedup.StepDecides`. |
| Dedup.StepDecides | index.py:151-168 | A song that duplicates no kept song is appended to the kept list, and the removed list is unchanged. A song whose first duplicate among the kept songs is `kept[k]` leaves the kept list unchanged, and gets exactly one evidence record naming it and `kept[k]`, with their similarities. The song is kept exactly when it duplicates no kept song. |
| Dedup.RemoveSimilarSongs | index.py:145-170 | Kept plus removed counts equal the input count. Empty input gives two empty lists. |
| Dedup.PartitionSplitsInput | index.py:145-170 | The kept list is exactly the input songs flagged as kept, in input order. The removed songs are exactly the others, in input order. Each song lands in exactly one list. |
| Dedup.PartitionPreservesSongs | index.py:145-170 | Kept and removed songs together are the input as a multiset. |
| Dedup.KeptNeverMergeable | index.py:151-168 | No kept song meets both thresholds against a song kept before it. |
| Dedup.EvidenceNamesFirstMatch | index.py:151-165 | Each evidence record names the first song of the final kept list that the removed song duplicates (not the best-scoring one), with both scores against it. |
| Dedup.OutputGrowsByAppending | index.py:148-168 | Processing more songs only appends to the kept and removed lists. Earlier decisions never change. |
| Dedup.DecisionAtEachSong | index.py:148-168 | The songs kept before position i form a prefix of the final kept list. Song i is kept exactly when it meets both thresholds against none of them. |
| Dedup.RemoveSimilarSongsLoop | index.py:145-170 | The outer loop as written computes exactly the partition above, and its counts add up to the input size. |
| Dedup.FindFirstMatch | index.py:151-165 | The inner loop, which stops at the first kept song meeting both thresholds, returns exactly that song's position. |
| Playlist.ChannelOf | index.py:286 | The artist is the video owner's channel if present, else the channel title if present, else "Unknown". |
| Playlist.ExtractSong | index.py:282-293 | Definition: one fetched item gives its video id, its playlist-item id, its title, and its owner channel, else its channel, else "Unknown". |
| Playlist.ExtractSongs | index.py:280-294 | One song per fetched item, in fetch order, with the item's id, playlist-item id, title and artist. |
| Playlist.InsertLastKeepsGroups | index.py:297 | Inserting a song appends it to its own key group and leaves every other key group unchanged. |
| Playlist.SortBy | index.py:297 | Python's keyed sort returns a permutation of its input, sorted non-decreasingly by key. |
| Playlist.SortByTitle | index.py:297 | The songs are a permutation of the input, sorted by lower-cased title. |
| Playlist.SortByTitleStable | index.py:297 | Songs whose lower-cased titles are equal keep their input order. |
| Playlist.GetPlaylistSongs | index.py:242-319 | A missing playlist gives no songs. Otherwise the result is a permutation of the extracted songs, sorted by lower-cased title, one per item. |
| Playlist.RemoveVideosFromPlaylist | index.py:214-239 | Every id is attempted once, in order. Success and failure counts add up to the number of ids, and the success count is the number of deletions that succeeded. |
| CsvImport.IsHeaderLike | shazam_import.py:47 | A row is a repeated header when its title and artist, stripped and lower-cased, are "title" and "artist". |
| CsvImport.Eligible | shazam_import.py:43-47 | A row contributes a pair when it has at least four fields, both fields are non-empty, and it is not a repeated header. |
| CsvImport.DataRows | shazam_import.py:39 | The reader skips the first row: the data rows are the rows after it, in order. An empty file has no data rows. |
| CsvImport.ScanRow | shazam_import.py:43-51 | Definition of one loop iteration: an eligible row's (title, artist) pair is appended and added to `seen` unless it is in `seen` already. Any other row changes nothing. |
| CsvImport.ScanRows | shazam_import.py:41-51 | The row loop takes at most one pair per row. |
| CsvImport.FirstRow | shazam_import.py:41-51 | Finds the first row contributing a pair: that row yields the pair and no earlier row does. |
| CsvImport.ScanKeepsSeen | shazam_import.py:48-51 | The row loop never takes a pair twice, and `seen` holds exactly the pairs taken. |
| CsvImport.ScanSound | shazam_import.py:41-51 | Every pair taken is `(row[2], row[3])` of some eligible row. |
| CsvImport.ScanComplete | shazam_import.py:41-51 | Every eligible row's pair is taken. |
| CsvImport.ScanFirstSeenOrder | shazam_import.py:41-51 | Pairs are taken in the order of the first row contributing each. |
| CsvImport.ImportRows | shazam_import.py:33-53 | After the first row: no duplicate pairs, and every pair is `(row[2], row[3])` of a data row with at least four fields. No pair has an empty field or is a stripped, lower-cased "title"/"artist" header. Every eligible row's pair is present, in first-seen order. |
| CsvImport.ImportSongsFromCsv | shazam_import.py:24-60 | An empty path after stripping, or an unreadable file, gives no pairs. Otherwise the result is the pairs of the file's rows. |
| Matching.ChannelOrEmpty | shazam_import.py:298 | A candidate's channel is its channel title, or "" when it has none. |
| Matching.Score | shazam_import.py:297-301 | With similarities in [0, 1] the score is in [0, 1]. It exceeds 0.5 only if the title or the channel similarity does. |
| Matching.BestCandidate | shazam_import.py:293-304 | The chosen candidate has the maximum score. Every earlier candidate scores strictly less, so ties keep the first. Its score is positive. When nothing is chosen, no candidate scores above 0. |
| Matching.SelectBest | shazam_import.py:293-304 | The candidate loop as written computes exactly that scan. |
| Matching.AcceptedMatch | shazam_import.py:293-306 | A match is accepted exactly when some candidate scores above 0.5, and then it is the first candidate with the maximum score. No candidates means no match. |
| Matching.IsQuotaError | shazam_import.py:340 | A search error is a quota failure exactly when its lower-cased text contains "quota" or its text contains "403". The "quotaExceeded" test is covered by the first one. |
| Matching.ProcessSong | shazam_import.py:295-341 | One iteration reports the song unmatched exactly when its search failed or found no match. It reports a quota failure exactly when the search failed with a quota error. It makes an insert call exactly when the accepted video is not yet in the playlist. Only a successful insert adds the id. |
| Matching.RunImport | shazam_import.py:279-341 | The playlist's id set only grows, and the unmatched list has at most one entry per song. |
| Matching.RunKeepsIdsConsistent | shazam_import.py:308-333 | The id set is the initial ids plus exactly the successfully inserted ids, and no id is inserted successfully twice. Every insert call targets an id that was not in the playlist at the start and was not added by an earlier successful call. |
| Matching.NoMatch | shazam_import.py:306-338 | Definition: a song is reported unmatched when its search raised an error, or when no candidate scored above 0.5. |
| Matching.UnmatchedAreExactlyTheMisses | shazam_import.py:279-341 | The unmatched list holds, in input order, exactly the songs whose search failed or found no candidate above 0.5. |
| PlaylistLookup.MatchesAsWritten | shazam_import.py:187 | Definition: the comparison as written, the stripped, lower-cased title against "Shazam Songs". |
| PlaylistLookup.Matches | shazam_import.py:187 | Definition: the intended comparison, the stripped, lower-cased title against "shazam songs". |
| PlaylistLookup.LookupAsWritten | shazam_import.py:186-194 | Definition: the first listed playlist that passes the comparison as written is reused; if none does, a new playlist is created. |
| PlaylistLookup.Lookup | shazam_import.py:186-194 | Definition: the same lookup with the intended comparison. |
| PlaylistLookup.FirstMatching | shazam_import.py:186-190 | The lookup returns the first listed playlist whose title matches. It creates a new one exactly when no title matches. |
| PlaylistLookup.NoTitleMatchesAsWritten | shazam_import.py:187 | No stripped, lower-cased title equals "Shazam Songs". |
| PlaylistLookup.LookupAsWrittenAlwaysCreates | shazam_import.py:186-208 | As written, the lookup decides to create a new playlist for every list of existing playlists. |
| PlaylistLookup.FindsOwnPlaylist | shazam_import.py:173-190 | With both sides lower-cased, an existing playlist titled "Shazam Songs" is found. |

## Left out

- Text.ToLower: lower-cases ASCII letters only. Python's `str.lower()` also maps non-ASCII letters (accented Latin, Greek, Cyrillic and others). The header check and the quota check compare against ASCII words, so they are exact. Similarity scores of non-ASCII titles may differ, and so may the title sort (next line).
- Playlist.SortByTitle: sorts by the ASCII-lower-cased title, so titles that differ only in the case of a non-ASCII letter get different keys. Python gives "Ángel" and "ángel" the same key and keeps their input order. The model puts "Ángel" first, because 'Á' (U+00C1) is below 'á' (U+00E1). Greek and Cyrillic capitals are affected the same way.
- Similarity.CalculateSimilarity: states only the [0, 1] bound and case-insensitivity. SequenceMatcher's block-finding algorithm and its junk heuristics belong to a library outside this repository, so `M` is an abstract bounded count. No symmetry is claimed (see above).
- Float arithmetic: scores are exact reals. `round(..., 2)` in the evidence records and the percentage printing are not modelled.
- OAuth and credential handling (`get_youtube_client` in both files): pickle files, the browser flow and token refresh are I/O through a foreign library.
- The YouTube API calls: playlist list/insert/delete, search, and the pagination in `get_playlist_items` and `get_playlist_video_ids`. Their results are model inputs: fetched items, per-call outcomes, the initial id set and the listed playlists.
- Playlist.GetPlaylistSongs: "not found" and any exception during the fetch (including failure to write `playlist_songs.json`) are the single input `found`.
- `csv.reader` tokenisation: the file arrives as rows of fields. A file that cannot be opened or decoded is `None`.
- File output: `playlist_songs.json`, `deduplicated_songs.csv`, `unmatched_songs.csv` and the failed-songs report.
- The quota fallback in `add_songs_to_shazam_playlist` (shazam_import.py:232-249). Its condition includes `or (playlist_id is None)`, so it always runs once no playlist id is obtained, and it only writes a file.
- The block at shazam_import.py:343-421. It references an undefined `max_songs` and is unreachable as a working path.
- main() orchestration and the `items_to_remove` list it builds from the evidence, plus `time.sleep` pacing and all `input()`/`print` console interaction.
- Matching.RunImport: the failed-to-add list is described per iteration only, by `ProcessSong`. A failed insert is reported only on the console, and the model records it as an insert call that did not add the id.

## Findings

| source | as written | input that shows it | evidently intended | confidence | as-written member | corrected member |
|---|---|---|---|---|---|---|
| shazam_import.py:187 | The stripped, lower-cased title of each listed playlist is compared with `playlist_title = "Shazam Songs"`, which contains upper-case letters. | The user already has a playlist titled "Shazam Songs": its lower-cased title "shazam songs" differs from "Shazam Songs", so the lookup falls through and creates another playlist. Every run creates a new one. | A case-insensitive comparison with "shazam songs", so an existing import playlist is reused. | high; not executed | PlaylistLookup.LookupAsWrittenAlwaysCreates | PlaylistLookup.FindsOwnPlaylist |
