/**
 The search-and-add loop of add_songs_to_shazam_playlist: for each imported
 (title, artist) pair the search results are scored, the best candidate is
 picked by a strict `>` scan starting from a best score of 0, and it is
 accepted only above 0.5. An accepted video is inserted unless its id is
 already in the playlist's id set, which grows with every successful
 insert. Search results and the outcome of each insert call are inputs.
 */
module Matching {
  import opened Common
  import opened Text
  import opened CsvImport

  /** A search result: the video id, its title, and the snippet's optional channel title. */
  datatype SearchItem = SearchItem(videoId: string, title: string, channelTitle: Option<string>)

  /** The channel a candidate is scored against: its channel title, or "" when the snippet has none. */
  function ChannelOrEmpty(item: SearchItem): (c: string)
    ensures item.channelTitle.None? ==> c == ""
    ensures item.channelTitle.Some? ==> c == item.channelTitle.value
  {
    match item.channelTitle
    case Some(c) => c
    case None => ""
  }

  /**
   A candidate's score: the mean of its title and channel similarities to
   the query. With similarities in [0, 1] the score is in [0, 1], and it
   exceeds the acceptance threshold only if one of the two similarities does.
   */
  function Score(sim: (string, string) -> real, q: Query, item: SearchItem): (r: real)
    ensures (forall a, b :: 0.0 <= sim(a, b) <= 1.0) ==> 0.0 <= r <= 1.0
    ensures r > AcceptanceThreshold ==>
              sim(q.title, item.title) > AcceptanceThreshold || sim(q.artist, ChannelOrEmpty(item)) > AcceptanceThreshold
  {
    (sim(q.title, item.title) + sim(q.artist, ChannelOrEmpty(item))) / 2.0
  }

  /** The state of the scan: the best candidate so far, if any, and its score. */
  datatype Best = Best(index: Option<nat>, score: real)

  /**
   The scan over the candidates, best score starting at 0 and replaced only
   on a strictly greater score. If a candidate is chosen it has the maximum
   score, every earlier candidate scores strictly less (ties keep the
   first), and its score is positive; if none is chosen, no candidate
   scores above 0.
   */
  function BestCandidate(sim: (string, string) -> real, q: Query, items: seq<SearchItem>): (b: Best)
    ensures b.index.None? ==> b.score == 0.0 && forall j :: 0 <= j < |items| ==> Score(sim, q, items[j]) <= 0.0
    ensures b.index.Some? ==>
              && b.index.value < |items|
              && b.score == Score(sim, q, items[b.index.value])
              && b.score > 0.0
              && (forall j :: 0 <= j < |items| ==> Score(sim, q, items[j]) <= b.score)
              && (forall j :: 0 <= j < b.index.value ==> Score(sim, q, items[j]) < b.score)
    decreases |items|
  {
    if |items| == 0 then Best(None, 0.0)
    else
      var n := |items| - 1;
      var b := BestCandidate(sim, q, items[..n]);
      var s := Score(sim, q, items[n]);
      assert forall j :: 0 <= j < n ==> items[j] == items[..n][j];
      if s > b.score then Best(Some(n), s) else b
  }

  /** The candidate loop as written, computing the scan above. */
  method SelectBest(sim: (string, string) -> real, q: Query, items: seq<SearchItem>)
    returns (bestVideo: Option<nat>, bestScore: real)
    ensures Best(bestVideo, bestScore) == BestCandidate(sim, q, items)
    ensures bestVideo.Some? ==> bestVideo.value < |items| && bestScore == Score(sim, q, items[bestVideo.value])
  {
    bestScore := 0.0;
    bestVideo := None;
    var i := 0;
    while i < |items|
      invariant 0 <= i <= |items|
      invariant Best(bestVideo, bestScore) == BestCandidate(sim, q, items[..i])
    {
      var score := Score(sim, q, items[i]);
      if score > bestScore {
        bestScore := score;
        bestVideo := Some(i);
      }
      assert items[..i + 1][..i] == items[..i];
      i := i + 1;
    }
    assert items[..i] == items;
  }

  const AcceptanceThreshold: real := 0.5

  /**
   The accepted candidate: the scan's choice, kept only when its score is
   above the threshold. A match is
   accepted exactly when some candidate scores above 0.5, and then it is
   the first candidate with the maximum score; no candidates means no match.
   */
  function AcceptedMatch(sim: (string, string) -> real, q: Query, items: seq<SearchItem>): (r: Option<nat>)
    ensures r.Some? ==>
              && r.value < |items|
              && Score(sim, q, items[r.value]) > AcceptanceThreshold
              && (forall j :: 0 <= j < |items| ==> Score(sim, q, items[j]) <= Score(sim, q, items[r.value]))
              && (forall j :: 0 <= j < r.value ==> Score(sim, q, items[j]) < Score(sim, q, items[r.value]))
    ensures r.None? <==> forall j :: 0 <= j < |items| ==> Score(sim, q, items[j]) <= AcceptanceThreshold
    ensures |items| == 0 ==> r.None?
  {
    var b := BestCandidate(sim, q, items);
    if b.index.Some? && b.score > AcceptanceThreshold then b.index else None
  }

  /** What the search call returned for one pair: candidates, or an exception's message. */
  datatype SearchOutcome = Results(items: seq<SearchItem>) | SearchFailed(message: string)

  /** An entry of unmatched_songs: the pair, and the error message when the search failed. */
  datatype Unmatched = Unmatched(query: Query, error: Option<string>)

  /** One insert call: the video id, and whether the call succeeded. */
  datatype Attempt = Attempt(videoId: string, succeeded: bool)

  /**
   The state the loop carries: the playlist's video-id set, every insert
   call made with its outcome, and the two report lists.
   */
  datatype Run = Run(
    playlistIds: set<string>,
    attempts: seq<Attempt>,
    unmatched: seq<Unmatched>,
    failedToAdd: seq<Unmatched>)

  /** A message containing "quotaExceeded" contains "quota" once lower-cased. */
  lemma QuotaExceededNamesQuota(message: string)
    ensures Contains(message, "quotaExceeded") ==> Contains(ToLower(message), "quota")
  {
    if Contains(message, "quotaExceeded") {
      var i :| 0 <= i <= |message| - |"quotaExceeded"| && OccursAt(message, "quotaExceeded", i);
      var t := ToLower(message);
      ToLowerAt(message);
      assert message[i..i + 13] == "quotaExceeded";
      forall j | 0 <= j < 5
        ensures t[i + j] == "quota"[j]
      {
        assert message[i + j] == "quotaExceeded"[j];
      }
      assert t[i..i + 5] == "quota";
      assert OccursAt(t, "quota", i);
    }
  }

  /**
   Whether a search error counts as a quota failure: the message names the
   quota (in any case) or HTTP 403. The test for "quotaExceeded" adds
   nothing, since the case-insensitive test for "quota" already covers it.
   */
  function IsQuotaError(message: string): (b: bool)
    ensures b <==> Contains(ToLower(message), "quota") || Contains(message, "403")
  {
    QuotaExceededNamesQuota(message);
    Contains(ToLower(message), "quota") || Contains(message, "quotaExceeded") || Contains(message, "403")
  }

  /**
   One iteration for the pair `q`: `search` is what the search returned and
   `inserted` whether an insert call, if one is made, succeeds. The pair is
   reported unmatched exactly when it found no match, and reported as a
   quota failure exactly when its search failed with a quota error. An
   insert call is made exactly when the accepted video is not yet in the
   playlist, and only a successful call adds its id to the set.
   */
  function ProcessSong(sim: (string, string) -> real, run: Run, q: Query, search: SearchOutcome, inserted: bool): (r: Run)
    ensures UnmatchedQueries(r.unmatched) == UnmatchedQueries(run.unmatched) + (if NoMatch(sim, q, search) then [q] else [])
    ensures r.failedToAdd
         == run.failedToAdd + (if search.SearchFailed? && IsQuotaError(search.message) then [Unmatched(q, Some(search.message))] else [])
    ensures run.attempts <= r.attempts && |r.attempts| <= |run.attempts| + 1
    ensures |r.attempts| > |run.attempts| <==>
              !NoMatch(sim, q, search) && search.items[AcceptedMatch(sim, q, search.items).value].videoId !in run.playlistIds
    ensures |r.attempts| == |run.attempts| ==> r.playlistIds == run.playlistIds
    ensures |r.attempts| > |run.attempts| ==>
              && r.attempts[|run.attempts|].videoId == search.items[AcceptedMatch(sim, q, search.items).value].videoId
              && r.attempts[|run.attempts|].succeeded == inserted
              && r.playlistIds == run.playlistIds + (if inserted then {r.attempts[|run.attempts|].videoId} else {})
  {
    match search
    case SearchFailed(e) =>
      var entry := Unmatched(q, Some(e));
      run.(unmatched := run.unmatched + [entry],
           failedToAdd := if IsQuotaError(e) then run.failedToAdd + [entry] else run.failedToAdd)
    case Results(items) =>
      match AcceptedMatch(sim, q, items)
      case None => run.(unmatched := run.unmatched + [Unmatched(q, None)])
      case Some(k) =>
        var videoId := items[k].videoId;
        if videoId in run.playlistIds then run
        else if inserted then
          run.(playlistIds := run.playlistIds + {videoId}, attempts := run.attempts + [Attempt(videoId, true)])
        else run.(attempts := run.attempts + [Attempt(videoId, false)])
  }

  /**
   The loop over the imported pairs, starting from the ids already in the
   playlist; `search(i)` and `inserted(i)` are the remote outcomes for the
   i-th pair.
   */
  function RunImport(sim: (string, string) -> real, initialIds: set<string>, songs: seq<Query>,
                     search: nat -> SearchOutcome, inserted: nat -> bool): (run: Run)
    ensures initialIds <= run.playlistIds
    ensures |run.unmatched| <= |songs|
    ensures |run.attempts| <= |songs|
    decreases |songs|
  {
    if |songs| == 0 then Run(initialIds, [], [], [])
    else
      var n := |songs| - 1;
      ProcessSong(sim, RunImport(sim, initialIds, songs[..n], search, inserted), songs[n], search(n), inserted(n))
  }

  /** The ids of the successful insert calls, in call order. */
  function Added(attempts: seq<Attempt>): (r: seq<string>)
    ensures |r| <= |attempts|
    decreases |attempts|
  {
    if |attempts| == 0 then []
    else
      var n := |attempts| - 1;
      Added(attempts[..n]) + (if attempts[n].succeeded then [attempts[n].videoId] else [])
  }

  /** Every successful call's id is among the added ids. */
  lemma {:induction false} AddedHas(attempts: seq<Attempt>, u: nat)
    requires u < |attempts| && attempts[u].succeeded
    ensures attempts[u].videoId in Added(attempts)
    decreases |attempts|
  {
    var n := |attempts| - 1;
    if u < n {
      AddedHas(attempts[..n], u);
    }
  }

  /**
   The t-th insert call targets an id that was in the playlist neither at
   the start nor through an earlier successful call.
   */
  predicate FreshAttempt(initialIds: set<string>, attempts: seq<Attempt>, t: int)
    requires 0 <= t < |attempts|
  {
    && attempts[t].videoId !in initialIds
    && forall u :: 0 <= u < t && attempts[u].succeeded ==> attempts[u].videoId != attempts[t].videoId
  }

  /**
   The id set is the initial ids plus exactly the successfully inserted
   ones, no id is successfully inserted twice, and every insert call is for
   an id not in the set at the time of the call.
   */
  ghost predicate IdsConsistent(initialIds: set<string>, run: Run) {
    && (forall v :: v in run.playlistIds <==> v in initialIds || v in Added(run.attempts))
    && NoDuplicates(Added(run.attempts))
    && (forall t :: 0 <= t < |run.attempts| ==> FreshAttempt(initialIds, run.attempts, t))
  }

  /** One iteration keeps the id set consistent with the insert calls. */
  lemma ProcessSongKeepsIds(sim: (string, string) -> real, initialIds: set<string>, run: Run, q: Query,
                            search: SearchOutcome, inserted: bool)
    requires IdsConsistent(initialIds, run)
    ensures IdsConsistent(initialIds, ProcessSong(sim, run, q, search, inserted))
  {
    var out := ProcessSong(sim, run, q, search, inserted);
    var n := |run.attempts|;
    if |out.attempts| == n {
      assert out.attempts == run.attempts;
    } else {
      var a := out.attempts[n];
      assert out.attempts == run.attempts + [a];
      assert out.attempts[..n] == run.attempts;
      var added := Added(run.attempts);
      assert Added(out.attempts) == added + (if a.succeeded then [a.videoId] else []);
      assert a.videoId !in added;
      forall i, j | 0 <= i < j < |Added(out.attempts)|
        ensures Added(out.attempts)[i] != Added(out.attempts)[j]
      {
        assert Added(out.attempts)[i] == added[i];
        if j < |added| {
          assert Added(out.attempts)[j] == added[j];
        }
      }
      forall t | 0 <= t < |out.attempts|
        ensures FreshAttempt(initialIds, out.attempts, t)
      {
        if t < n {
          assert FreshAttempt(initialIds, run.attempts, t);
          assert forall u :: 0 <= u <= t ==> out.attempts[u] == run.attempts[u];
        } else {
          forall u | 0 <= u < t && out.attempts[u].succeeded
            ensures out.attempts[u].videoId != a.videoId
          {
            assert out.attempts[u] == run.attempts[u];
            AddedHas(run.attempts, u);
          }
        }
      }
    }
  }

  /**
   Over the whole loop: the id set is the initial ids plus exactly the
   successfully inserted ids, no id is inserted successfully twice, and no
   insert call is ever made for an id already in the playlist, whether it
   was there at the start or added earlier in the run.
   */
  lemma {:induction false} RunKeepsIdsConsistent(sim: (string, string) -> real, initialIds: set<string>, songs: seq<Query>,
                                                 search: nat -> SearchOutcome, inserted: nat -> bool)
    ensures IdsConsistent(initialIds, RunImport(sim, initialIds, songs, search, inserted))
    decreases |songs|
  {
    if |songs| > 0 {
      var n := |songs| - 1;
      RunKeepsIdsConsistent(sim, initialIds, songs[..n], search, inserted);
      ProcessSongKeepsIds(sim, initialIds, RunImport(sim, initialIds, songs[..n], search, inserted),
                          songs[n], search(n), inserted(n));
    }
  }

  /** The pair at position i is reported unmatched: its search failed or no candidate was accepted. */
  predicate NoMatch(sim: (string, string) -> real, q: Query, search: SearchOutcome) {
    search.SearchFailed? || AcceptedMatch(sim, q, search.items).None?
  }

  function UnmatchedFlags(sim: (string, string) -> real, songs: seq<Query>, search: nat -> SearchOutcome): (f: seq<bool>)
    ensures |f| == |songs|
    ensures forall i :: 0 <= i < |songs| ==> f[i] == NoMatch(sim, songs[i], search(i))
  {
    seq(|songs|, i requires 0 <= i < |songs| => NoMatch(sim, songs[i], search(i)))
  }

  function UnmatchedQueries(entries: seq<Unmatched>): (r: seq<Query>)
    ensures |r| == |entries|
    ensures forall i :: 0 <= i < |entries| ==> r[i] == entries[i].query
  {
    seq(|entries|, i requires 0 <= i < |entries| => entries[i].query)
  }

  /**
   unmatched_songs lists, in input order, exactly the pairs whose search
   failed or found no candidate above the threshold.
   */
  lemma {:induction false} UnmatchedAreExactlyTheMisses(sim: (string, string) -> real, initialIds: set<string>, songs: seq<Query>,
                                                         search: nat -> SearchOutcome, inserted: nat -> bool)
    ensures UnmatchedQueries(RunImport(sim, initialIds, songs, search, inserted).unmatched)
         == Select(songs, UnmatchedFlags(sim, songs, search), true)
    decreases |songs|
  {
    if |songs| > 0 {
      var n := |songs| - 1;
      UnmatchedAreExactlyTheMisses(sim, initialIds, songs[..n], search, inserted);
      var prev := RunImport(sim, initialIds, songs[..n], search, inserted);
      var run := RunImport(sim, initialIds, songs, search, inserted);
      assert run == ProcessSong(sim, prev, songs[n], search(n), inserted(n));
      var f := UnmatchedFlags(sim, songs, search);
      assert UnmatchedQueries(run.unmatched) == UnmatchedQueries(prev.unmatched) + (if f[n] then [songs[n]] else []);
      assert f[..n] == UnmatchedFlags(sim, songs[..n], search);
      SelectSnoc(songs, f, true, n);
      assert songs[..n + 1] == songs && f[..n + 1] == f;
    }
  }
}
